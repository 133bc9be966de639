# Verification of gombit's stateful core

Dafny models of the parts of gombit that are hard to get right, and proofs of
what they promise. `dafny verify dfyconfig.toml` checks all of it.

- Credentials (`AuthStore`, `SessionTx`, `OneTimeTx`, `AuthService`): the
  refresh token table and its rotation chains, one-time tokens, password change
  and account state. `AuthService` is the code in its own form, a class whose
  methods carry out each transaction statement by statement; `SessionTx` and
  `OneTimeTx` say on values what each transaction does; `SessionLaws`, `Chains`,
  `Tokens` and `TokenLaws` prove what that means. `AuthRuns` lets requests
  interleave: every commit and every unlocked read is a step, and a request may
  act on what it read at any later time. `AuthInvariant` proves what every step
  keeps and `AuthTheorems` what holds of every run.
- Background work (`Background`): admission, the worker pool and its shutdown.
- Login throttling (`ThrottleWait`, `Throttle`, `Throttler`) on the in-memory
  cache (`MemoryCache`, `CacheGets`).
- The trusted proxy check (`ProxyTrie`), the API prefix inference of the client
  generator (`ApiPaths`), `jobs retry --all` (`RetryAll`) and the insert under a
  savepoint (`Savepoint`).

## What the code does differently from what one would expect

Each of these is stated with the input that shows it and, where the property
holds otherwise, the exact condition.

- `increment` reads the clock twice; a counter whose deadline passes in between
  keeps its count under a new deadline (`CounterOutlivesItsDeadline`,
  `DoubleReadExact`).
- `Get` can miss a key that was live throughout, when it is set again between
  its read and its clock reading (`GetCanMissALiveKey`; exactly when, in
  `GetRightUnlessOvertaken`).
- A throttled attempt that stalls for two windows between choosing its bucket and
  counting in it starts a fresh count (`StalledTakeExceedsTheLimit`,
  `TakeExactIffItContinues`).
- Prefix inference passes over a valid prefix that ends in a slash
  (`EmptySegmentIsPassedOver`, `InferExact`).
- A live session whose chain runs more than a thousand rows past the requester's
  row is answered as ended (`LongSessionIsRefused`; exactly when, in
  `RequesterChainExact` and `SessionRowIsTheHead`).
- The comment at `auth/service.go:768-772` says a login does not take the user's
  lock; `startSession` takes it (`auth/service.go:299-304`), and the model
  follows the code.

## Modelling

Time is an integer number of nanoseconds (a real in `Background`), and a run's
clock does not go back. A transaction under the user's lock is one step; logout
takes no lock, so it writes the instant it read before and can come between the
list and the update of a session's revocation. Token hashes and session
ids are given values. Floating point is modelled over the reals. Counters carry
their 64-bit range. A call that reaches a database, a cache or a queue can fail
where its own module says so. In `Throttle` the clock readings of a take are two,
the bucket's and the increment's; in `Throttler` a reservation has one reading.
The deadline of `retry --all` is a number of reads. A rule of the throttle stands
for one with a subject.

## Model

| member | source | states |
|---|---|---|
| `SessionLaws.RotateExact` | auth/service.go:497-632 | for a request holding any earlier version of the row, each of the six outcomes iff its condition, in instants: it rotates iff the account is enabled, the row is unexpired and still unrevoked and the new hash is free; the reuse cascade runs iff it saw the token rotated, the grace or more ago or with a successor that has itself been rotated; a lost race is told from a dead token by the successor; no other outcome writes |
| `SessionLaws.GraceEnds` | auth/service.go:547-589 | a rotated token with a live successor is answered as raced while less than the grace has passed, and ends every session from then on, or at once when there is no grace |
| `SessionLaws.RotatedAuthenticates` | auth/service.go:590-632 | the new row authenticates its user for a full lifetime and no one else; the presented row authenticates no one |
| `SessionLaws.StartSessionExact` | auth/service.go:299-342 | each answer of a login iff its condition on the locked row, and the one row it writes |
| `SessionLaws.SignedInAuthenticates` | auth/service.go:723-766 | a new session authenticates its user, and no other, exactly until the end of the refresh token's lifetime |
| `SessionLaws.RotatedMovesTheSession` | auth/service.go:590-632 | a rotation swaps exactly the presented row for the new one among the unrevoked rows of the user, and touches no other row |
| `SessionLaws.ReuseEndsEverySession` | auth/service.go:577-589 | the reuse cascade leaves the user no unrevoked row |
| `SessionLaws.RequesterChainExact` | auth/sessions.go:289-328 | the walk returns the chain of the requester from its row, and fails iff the row is not the user's, the head of its chain is dead, or the head lies past the thousandth row read |
| `SessionLaws.LongSessionIsRefused` | auth/sessions.go:276-328 | the input that shows the bound: a live session, seen from its first row, is answered as ended iff it has grown past a thousand rows |
| `SessionLaws.RevokeButLeavesTheHead` | auth/sessions.go:343-349 | keeping a live chain leaves exactly the head of it unrevoked |
| `SessionLaws.RevokeOthersExact` | auth/sessions.go:330-369 | revoking the others ends every session but the requester's, or changes nothing when that one has ended |
| `SessionLaws.ChangePasswordOutcome` | auth/password_change.go:102-141 | each outcome iff its condition, in the order of the checks; a refused change writes nothing |
| `SessionLaws.ChangePasswordSessions` | auth/password_change.go:121-140 | which sessions a change leaves: all of them, the requester's alone, or none |
| `SessionLaws.ChangePasswordOutdates` | auth/password_change.go:115-140 | a change writes the new hash and nothing else of any user, and spends the reset and email change tokens of the user and no other |
| `SessionLaws.SetUserStateExact` | auth/account_state.go:46-91 | each outcome iff its condition, a caller's check on the locked row included; the user ends in the state asked for; a disable that changes it ends every session and link; a repeated one writes nothing; enabling gives nothing back |
| `SessionLaws.SessionRowIsTheHead` | auth/sessions.go:141-166 | the row a requester owns in the list is the head of its chain, whatever row its token names, while the head is within reach |
| `SessionLaws.RevokeSessionExact` | auth/sessions.go:168-227 | each outcome iff its condition, with any logouts between the list and the update: a success means this call ended the session, and a target that a logout ended first is not found; it reports the requester's own session exactly then |
| `SessionLaws.RevokeAllExact` | auth/sessions.go:229-260 | leaves no unrevoked row, or refuses an ended or unreachable requester with nothing changed |
| `Chains.ReplaceKeeps` | auth/service.go:590-632 | a rotation keeps the table a set of disjoint chains, in which a replaced row is revoked and each row has one predecessor at most, and changes rows only forward |
| `Chains.RevokeKeeps` | auth/service.go:803-807 | any revocation keeps the chains and changes rows only forward |
| `Chains.IssueKeeps` | auth/service.go:352-376 | a login's row keeps the chains |
| `Chains.ChainShape` | auth/sessions.go:276-288 | along a chain every row but the last is revoked and linked to the next, and all belong to one user |
| `Chains.WalkFollows` | auth/sessions.go:289-311 | the loop with its visited check and its bound follows the chain exactly as far as the bound allows |
| `AuthInvariant.SessionKeeps` | auth/service.go:299-708 | every committed transaction, in any interleaving and from any stale read, keeps the chains, their logins and what requests hold, and undoes no revocation or link |
| `AuthInvariant.TokenKeeps` | auth/onetime.go:88-268 | every committed transaction keeps one working link per user and purpose, the spacing of messages and that no token is accepted twice |
| `AuthInvariant.ProofKeeps` | auth/verification.go:82-115 | every verified address stays one that an accepted token or an operator has proven |
| `AuthInvariant.StepKeeps` | auth/service.go:764-801 | one step keeps all invariants, and nothing written once comes undone |
| `AuthInvariant.RunInv` | auth/service.go:764-801 | every world of every run meets the invariants |
| `AuthInvariant.RunGrows` | auth/service.go:764-801 | between any two worlds of a run rows change only forward and history only grows |
| `AuthTheorems.StepsAreTransactions` | auth/service.go:473-480 | every committing step of a run leaves exactly what the transaction leaves at its instant |
| `AuthTheorems.ReadsAreHeld` | auth/service.go:480-486 | an unlocked read is held with the version it found, and a send holds the token it issued |
| `AuthTheorems.HistoryIsKept` | auth/service.go:299-319 | every login and every acceptance is in the history |
| `AuthTheorems.AccountSteps` | auth/service.go:188-213 | what creating, rewriting and deleting an account does in a run |
| `AuthTheorems.RevokesAllLeavesNone` | auth/account_state.go:50-91 | a disable, an ending reset, the cascade, a revoke-all and a password change outside any session each leave no unrevoked row |
| `AuthTheorems.RevokedForGood` | auth/sessions.go:229-260 | no row that existed at such a commit authenticates or rotates at any later time, for any request and any stale read |
| `AuthTheorems.LaterSessionsComeFromLaterLogins` | auth/service.go:281-319 | a session alive after such a commit started at a login that committed later, with the password hash it verified still the stored one |
| `AuthTheorems.EndedChainsStayEnded` | auth/service.go:590-632 | a session whose rows are all revoked gains no unrevoked row, whatever the user's other sessions do: rotation cannot revive it |
| `AuthTheorems.EndsSessionEnds` | auth/sessions.go:193-369 | a logout or a revocation of its current row, a revocation of the others or a password change from another session, and every commit that revokes all, each end the session |
| `AuthTheorems.SessionEndedForGood` | auth/sessions.go:168-369 | in every run such a session stays ended: none of its rows, later ones included, authenticates or rotates again, for any request and any stale read |
| `AuthTheorems.NoSessionComesBack` | auth/sessions.go:229-260 | a user left without a session has later ones only from rows of later logins |
| `AuthTheorems.SessionsPerLogin` | auth/service.go:590-632 | a user's unrevoked rows never outnumber their logins |
| `AuthTheorems.OneHead` | auth/sessions.go:276-288 | of one chain, one row is unreplaced |
| `AuthTheorems.OneRotationPerToken` | auth/service.go:590-615 | of all rotations racing on one token, at most one commits in a run |
| `AuthTheorems.RotationsReadEarlierRows` | auth/service.go:478-496 | what a rotation holds from its unlocked read is always an earlier version of a row of a well-formed table, as `RotateExact` needs |
| `AuthTheorems.RowsAreWrittenOnce` | auth/service.go:590-615 | revocation and link are written once along every run |
| `AuthTheorems.LoginHappened` | auth/service.go:299-319 | every login in the history is a commit of the run that verified the stored hash |
| `AuthTheorems.AcceptedWorks` | auth/onetime.go:221-268 | an accepted token is delivered, unused, unexpired and the only working link of its user and purpose, and is spent by it |
| `AuthTheorems.AcceptedOnce` | auth/onetime.go:221-268 | in a run a token is accepted at most once |
| `AuthTheorems.OutdatedForGood` | auth/password.go:99-148 | after a reset or a password change no earlier reset or email change token is accepted or activated, after an email change or a disable none at all, messages still in flight included |
| `AuthTheorems.MessagesAreSpaced` | auth/onetime.go:142-172 | two messages of one user and purpose are a resend interval apart in every run, unless the first was withdrawn |
| `AuthTheorems.VerifiedMeansProven` | auth/models.go:37-41 | whenever a user counts as verified, an earlier commit accepted a token mailed to that address, up to normalization, or an operator created the account with it |
| `Tokens.WaitSpaces` | auth/onetime.go:142-172 | a wait of zero means every earlier message of the kind is a full interval old, delivered or not |
| `Tokens.IssueKeeps` | auth/onetime.go:88-140 | issuing keeps the table's shape |
| `Tokens.ActivateKeeps` | auth/onetime.go:174-204 | activation keeps one working link per user and purpose |
| `Tokens.WithdrawKeeps` | auth/onetime.go:206-214 | withdrawal deletes undelivered tokens only |
| `Tokens.UseTokenEffect` | auth/onetime.go:216-268 | a refused use writes nothing; an accepted one found the token delivered and unused under the lock and spends it with what its purpose outdates |
| `TokenLaws.WaitExact` | auth/onetime.go:142-172 | the wait is the least after which every message of the kind, delivered or in flight, is a resend interval old |
| `TokenLaws.IssueExact` | auth/onetime.go:88-140 | each answer of a send iff its condition on the locked account and the earlier messages; a refusal as too soon reports the least delay |
| `TokenLaws.RefusalExact` | auth/email_change.go:89-112 | each reason a flow refuses an enabled account for, in the order of its checks |
| `TokenLaws.IssueWrites` | auth/onetime.go:113-136 | the one token written carries the requested address for a change and the account's otherwise, the account's address it is from, and the lifetime of its purpose |
| `TokenLaws.ActivateExact` | auth/onetime.go:174-204 | succeeds iff the account is there and the token pending; it works from then, and exactly the user's other working links of its purpose stop |
| `TokenLaws.WithdrawExact` | auth/onetime.go:206-214 | deletes the token iff it was never delivered, and no other |
| `TokenLaws.UseTokenExact` | auth/onetime.go:216-268 | each answer of a consumption iff its condition on the read and the locked rows; a refused one writes nothing |
| `TokenLaws.AcceptedWritesUser` | auth/password.go:99-118 | what an accepted link writes to its user and to no other: a reset the new hash, a change its address as the account's and verified, a verification its address as verified |
| `TokenLaws.AcceptedVerifies` | auth/verification.go:92-108 | a change leaves the account verified for its new address; a verification leaves it verified iff it was or the link was mailed to its address, up to normalization |
| `TokenLaws.AcceptedSpends` | auth/password.go:125-148 | exactly the link and those its purpose outdates are spent, and a reset ends exactly the user's sessions unless they are kept |
| `OneTimeTx.LastSent` | auth/onetime.go:153-162 | the latest delivery of the kind, if there is one |
| `OneTimeTx.LastUnsent` | auth/onetime.go:162-172 | the latest token of the kind still undelivered, if there is one |
| `AuthStore.NormalizeExact` | auth/errors.go:69-71 | a normalized address has no blanks around it and no capitals, and a normal one is its own normal form |
| `AuthStore.NormalizeIgnoresBlanks` | auth/errors.go:69-71 | blanks around an address make no difference |
| `AuthStore.NormalizeIgnoresCase` | auth/errors.go:69-71 | nor does the case of its letters |
| `AuthService.Service.StartSession` | auth/service.go:299-319 | the locked checks and the issue give the answer and the row of `StartSessionExact` |
| `AuthService.Service.IssueTokens` | auth/service.go:352-376 | adds one active row with a fresh id, or nothing when the hash is taken |
| `AuthService.Service.RotateRefreshOnce` | auth/service.go:473-633 | the branches and the conditional update, statement by statement, give the outcome and the tables that `RotateExact` and `RotatedMovesTheSession` characterize |
| `AuthService.Service.RevokeRefresh` | auth/service.go:683-708 | logout revokes the one row if it still is unrevoked, and says whether it did |
| `AuthService.Service.FollowChain` | auth/sessions.go:289-311 | the loop computes the walk of `WalkFollows` |
| `AuthService.Service.KeptChain` | auth/sessions.go:319-328 | the ids to keep, or none when the session has ended |
| `AuthService.Service.OwnRow` | auth/sessions.go:148-166 | the requester's listed row, or zero |
| `AuthService.Service.RevokeSessionAs` | auth/sessions.go:193-227 | outcome and table as `RevokeSessionExact` characterizes them, the update that finds the row already revoked included |
| `AuthService.Service.RevokeAllSessionsAs` | auth/sessions.go:248-260 | outcome and table as `RevokeAllExact` characterizes them |
| `AuthService.Service.RevokeOtherSessions` | auth/sessions.go:358-364 | outcome and table as `RevokeOthersExact` characterizes them |
| `AuthService.Service.ChangePassword` | auth/password_change.go:102-141 | outcome and tables as `ChangePasswordOutcome` and `ChangePasswordSessions` characterize them |
| `AuthService.Service.SetUserState` | auth/account_state.go:50-91 | outcome and tables as `SetUserStateExact` characterizes them, with the check made on the row the change is made to |
| `AuthService.Service.IssueOneTimeToken` | auth/onetime.go:90-140 | answer and token as `IssueExact`, `RefusalExact` and `IssueWrites` characterize them |
| `AuthService.Service.ActivateToken` | auth/onetime.go:178-204 | answer and tokens as `ActivateExact` characterizes them |
| `AuthService.Service.WithdrawToken` | auth/onetime.go:208-214 | tokens as `WithdrawExact` characterizes them |
| `AuthService.Service.ConsumeOneTimeToken` | auth/onetime.go:221-268 | spends the token iff the read and the locked checks all pass |
| `AuthService.Service.ConsumeToken` | auth/email_change.go:135-178 | answer and tables as `UseTokenExact`, `AcceptedWritesUser` and `AcceptedSpends` characterize them: a consumption and the write of its purpose commit together or not at all |
| `Background.RetryAfterExact` | auth/background.go:129-140 | the reported wait is the least after which the next attempt is admitted: earlier is refused, later admitted |
| `Background.AdmittedBound` | auth/background.go:17-27 | however attempts come, no more are admitted than the bucket held and was refilled with |
| `Background.BurstAdmitted` | auth/background.go:109-140 | a full bucket admits exactly 32 at once |
| `Background.RateIsTheWorkers` | auth/background.go:36-58 | the refill rate is what sixteen workers finish in the worst case of 45 seconds |
| `Background.Runner.TakeToken` | auth/background.go:129-140 | refills, caps, and takes a token iff a whole one is there |
| `Background.Runner.Submit` | auth/background.go:148-170 | closed refuses untouched; otherwise busy iff no token, discarded iff the queue is full, else queued last |
| `Background.Runner.Next` | auth/background.go:173-186 | the oldest task, or none when closed and drained |
| `Background.PoolSubmits` | auth/background.go:148-170 | in the pool a submission does to bucket, queue and answers what the runner does, and a queued task goes to an idle worker as the runner hands it out |
| `Background.PoolFrees` | auth/background.go:173-201 | a worker that becomes free takes what the runner hands out, or waits, or exits once closed |
| `Background.PoolFinishes` | auth/background.go:188-201 | a finished task is counted and its worker takes the next |
| `Background.PoolElapses` | auth/background.go:44-51 | time is taken off what the running tasks have left |
| `Background.PoolCloses` | auth/background.go:216-278 | a close dismisses the idle workers and lets the others finish; a shutdown out of time drops what waits |
| `Background.CapacityKeeps` | auth/background.go:17-27 | queued work, work in hand and admissible work together never exceed the burst and the workers, while tasks keep to their deadlines |
| `Background.QueueNeverOverflows` | auth/background.go:17-58 | in every run whose tasks keep to their deadlines at most 48 tasks wait and none is ever discarded |
| `Background.AlwaysBounded` | auth/background.go:28-36 | whatever the tasks do, never more than the queue waits and never more than the workers run |
| `Background.ConservationKeeps` | auth/background.go:188-278 | every step keeps: each admitted task is finished, in hand, waiting or dropped by a shutdown, once, and begun in order |
| `Background.RunConserves` | auth/background.go:188-278 | conservation holds in every run, deadlines kept or not |
| `Background.CleanCloseFinishesEverything` | auth/background.go:203-278 | a shutdown that dropped nothing ends with every admitted task finished exactly once |
| `Background.AnswersRevealNothing` | auth/background.go:17-36 | two runs with the same arrivals give the same answers, whatever the tasks are, however long they take and whether the queue was full |
| `ProxyTrie.InsertAdds` | config/config.go:1564-1582 | an insertion adds exactly the addresses under the prefix |
| `ProxyTrie.CoveredIffFull` | config/config.go:1559-1582 | the root is covered iff the tree contains every address of the width |
| `ProxyTrie.TrieExact` | config/config.go:1533-1582 | the root is covered iff the inserted ranges together contain every address |
| `ProxyTrie.OrderDoesNotMatter` | config/config.go:1536-1557 | order and repetition of the ranges do not change the answer |
| `ProxyTrie.RangeNode.InsertRange` | config/config.go:1564-1582 | the recursive insertion on linked nodes, with its early return and its collapse, refines the insertion on trees |
| `ProxyTrie.MappedPrefixIsLong` | config/config.go:1543-1547 | subtracting 96 from an IPv4-mapped range never goes below zero |
| `ProxyTrie.AddProxy` | config/config.go:1538-1551 | a range goes to its family's tree and to no other |
| `ProxyTrie.RangesCoverAll` | config/config.go:1536-1557 | true iff the ranges of one family together cover that family; the early exit loses nothing |
| `ProxyTrie.FamilyCoveredExact` | config/config.go:1533-1557 | a family is covered iff every peer of it, 32 or 128 bits wide, is in one of the ranges, mapped ranges standing for IPv4 peers |
| `ProxyTrie.SingleRange` | config/config.go:1517-1531 | a range is unsafe by itself iff it alone covers its family |
| `ProxyTrie.OneRangeSuffices` | config/config.go:1517-1557 | a range that covers a family by itself covers it in any list |
| `ProxyTrie.RefusesProxies` | config/config.go:810-837 | production refuses the list iff it holds the wildcard or the ranges of one family trust every peer of it |
| `MemoryCache.MemoryRefinesSimpleMap` | cache/memory.go:121-312 | for every sequence of operations, the two steps of each `Get` and the sweeps in between included, the visible entries are those of a map that drops entries as they expire, and every operation but a `Get` answers as on it, when no value other than zero expires between an increment's two clock readings, the condition `DoubleReadExact` shows to be exact |
| `MemoryCache.SweepInvisible` | cache/memory.go:116-162 | a sweep, at its own or an earlier clock reading and of any keys, removes no live entry |
| `MemoryCache.IncrementExact` | cache/memory.go:268-312 | with one clock reading: stores exactly the sum or fails unchanged, at exactly the values that leave the 64-bit range; keeps an existing deadline and gives a counter without one the lifetime asked for |
| `MemoryCache.DecrementExact` | cache/memory.go:240-264 | subtracts exactly from a live counter and keeps its deadline; makes none, and fails unchanged |
| `MemoryCache.DoubleReadExact` | cache/memory.go:268-312 | the two clock readings of an increment differ from one iff the deadline of a value other than zero passes between them |
| `MemoryCache.CounterOutlivesItsDeadline` | cache/memory.go:268-312 | the input that shows it: the old count lives on under a new deadline |
| `MemoryCache.AddChecked` | cache/memory.go:291-297 | the overflow guards accept exactly the sums in range |
| `MemoryCache.SubChecked` | cache/memory.go:254-257 | the overflow guards accept exactly the differences in range |
| `MemoryCache.HitWasLive` | cache/memory.go:165-186 | a hit was live when it was read |
| `MemoryCache.GetExact` | cache/memory.go:165-186 | against the table as read and the table by then: the answer is what is shown by then iff both show the same; a live key is missed iff the entry read is not live and the later one is; the clean-up removes nothing live |
| `CacheGets.GetRightUnlessOvertaken` | cache/memory.go:165-186 | in every sequence of operations a `Get` answers as the simple map shows the key at some instant from its read to its look at the clock, iff it is not overtaken: the entry it read expires by the look while the key, through what replaces that entry in time, is never deleted and never expires |
| `CacheGets.HitsAreRight` | cache/memory.go:165-186 | a hit is always what the simple map shows at the read |
| `CacheGets.OvertakenBySet` | cache/memory.go:165-186 | only a set of the key, made while the entry read was still live, can overtake a `Get` |
| `CacheGets.GetCanMissALiveKey` | cache/memory.go:165-186 | the input that shows it: set again just before its first entry expires, the key is missed |
| `CacheGets.SurvivesIsShown` | cache/memory.go:189-312 | following one entry through the events tells whether the simple map shows the key at every one of them |
| `MemoryCache.Memory.Read` | cache/memory.go:165-172 | whatever the clock says later, the answer from what it returns is what the cache shows then, if the key is left alone |
| `MemoryCache.Memory.Finish` | cache/memory.go:172-186 | the answer at the first clock reading, and the removal that spares an entry fresh at the second |
| `MemoryCache.Memory.Set` | cache/memory.go:189-210 | a negative lifetime is refused unchanged; zero means no deadline |
| `MemoryCache.Memory.Delete` | cache/memory.go:213-224 | removes exactly the keys |
| `MemoryCache.Memory.Count` | cache/memory.go:268-312 | in place, as `IncrementExact` and `DoubleReadExact` characterize it |
| `MemoryCache.Memory.CountDown` | cache/memory.go:240-264 | in place, as `DecrementExact` characterizes it |
| `MemoryCache.Memory.SweepBatch` | cache/memory.go:154-162 | removes exactly the listed entries that are expired now, and says which |
| `MemoryCache.Memory.SweepExpired` | cache/memory.go:131-148 | whatever others do between its batches it removes only what is expired when it is removed; left alone it removes exactly the expired entries; in as few full batches as there can be |
| `ThrottleWait.FitInstantExact` | auth/throttle.go:417-429 | the computed instant is the least at which one more attempt fits, and it goes on fitting from then |
| `ThrottleWait.WaitWithinHalfASecond` | auth/throttle.go:427-428 | whole seconds, at least one, and otherwise within half a second of exact |
| `ThrottleWait.WindowWait` | auth/throttle.go:339-349 | zero iff the weighted count fits now |
| `ThrottleWait.WindowWaitExact` | auth/throttle.go:343-349 | a refused attempt is told, to within that rounding, when it is the first to fit again |
| `Throttle.StepKeeps` | auth/throttle.go:279-324 | every interleaved take, undo, refund and sweep keeps each counter equal to the places taken and the overruns still to undo, and each bucket within its limit |
| `Throttle.Elapsed` | auth/throttle.go:353-360 | the part of the bucket that has passed, exactly |
| `Throttle.WeighedExact` | auth/throttle.go:353-360 | a bucket is weighed exactly while it is the current one or the one before |
| `Throttle.BucketLimit` | auth/throttle.go:332-349 | in every run the accepted and unrefunded attempts of a bucket never exceed the limit |
| `Throttle.IntervalLimit` | auth/throttle.go:332-349 | in every run the rule's accepted and unrefunded attempts of any interval of one window number at most twice the limit |
| `Throttle.CounterOutlivesItsWeight` | auth/throttle.go:379-395 | a counter is there and exact at every instant its bucket is weighed: twice the window is long enough |
| `Throttle.SettledLeavesNothing` | auth/throttle.go:279-324 | whatever other attempts do meanwhile, a reservation that has undone its overrun and refunded its places leaves every weighed bucket counting the others' places and nothing else |
| `Throttle.GivenBackForGood` | auth/throttle.go:449-474 | a place given back never counts again |
| `Throttle.PromptTakesContinue` | auth/throttle.go:379-395 | a take that increments within a window of its bucket's end is in time |
| `Throttle.TakeExactIffItContinues` | auth/throttle.go:379-395 | a take keeps the accounts iff its counter is still there or has nothing to count |
| `Throttle.StalledTakeExceedsTheLimit` | auth/throttle.go:379-395 | the input that shows it: two places in one bucket under a limit of one |
| `Throttler.Throttler.ReadWindow` | auth/throttle.go:363-374 | both counts, a stored null read as zero, or none iff one of them does not decode as a number |
| `Throttler.Throttler.TakePlace` | auth/throttle.go:379-395 | counts one and fits, or leaves every count as it was and says how long to wait |
| `Throttler.Throttler.RefundKey` | auth/throttle.go:465-474 | a live number counts one less; no counter is made, no deadline moves and no other key is touched |
| `Throttler.Throttler.RefundExcept` | auth/throttle.go:447-463 | every count is what it was before the reservation, plus the places of the spared rule; sparing none undoes it |
| `Throttler.Throttler.TakeNext` | auth/throttle.go:313-323 | one rule of the second pass: its place is added within its limit, or every place is given back |
| `Throttler.Throttler.ReadAll` | auth/throttle.go:300-312 | refuses at the first rule already at its limit, with nothing written; otherwise every readable rule has room |
| `Throttler.Throttler.TakeAll` | auth/throttle.go:313-323 | a place in each rule within its limit, or a refusal that leaves every count as it was |
| `Throttler.Throttler.Reserve` | auth/throttle.go:288-324 | all or nothing: a place in every rule that is on and countable, each within its limit; or a refusal by one of the rules, with the wait of the attempt after those there were, whose meaning in instants is `RefusedUntil`, and every count unchanged |
| `Throttler.RefusedUntil` | auth/throttle.go:339-349 | with nothing else attempted, a refused attempt has room from the instant its reported wait rounds, and not before |
| `ApiPaths.CommonStringPrefix` | client/paths.go:115-125 | the loop computes the longest common prefix |
| `ApiPaths.CommonAllIsLongest` | client/paths.go:66-70 | the common part is a prefix of every path, and every common prefix is a prefix of it |
| `ApiPaths.IsValidAPIPrefix` | client/paths.go:95-113 | the early-returning loop decides validity |
| `ApiPaths.ValidExact` | client/paths.go:95-113 | valid iff not empty, without a parameter, and every path goes on from it, after a slash, with a literal segment |
| `ApiPaths.InferLiveAPIPrefix` | client/paths.go:59-84 | the loops compute the inference the lemmas are about |
| `ApiPaths.InferExact` | client/paths.go:54-84 | returns the longest valid prefix, or the default when there is none, iff that prefix is not one the walk passes over |
| `ApiPaths.InferLongest` | client/paths.go:54-84 | so always, when no path has an empty segment |
| `ApiPaths.InferDefault` | client/paths.go:59-65 | no paths, or paths all under the typed prefix, give the typed prefix |
| `ApiPaths.EmptySegmentIsPassedOver` | client/paths.go:71-83 | the input that shows the other case |
| `ApiPaths.InferIgnoresOrder` | client/paths.go:59-84 | depends on the set of paths alone, so the map's iteration order does not matter |
| `ApiPaths.RewritePaths` | client/paths.go:20-52 | a document already under the typed prefix is unchanged; otherwise each key has its live prefix replaced, one to one and with its value, and restoring the live prefix gives the document back |
| `RetryAll.SweepExact` | jobs/memory.go:405-430 | trying each job once leaves failed exactly those that another job's live claim on their key kept out when they were tried |
| `RetryAll.OneRetriedPerClaim` | jobs/memory.go:411-421 | of two jobs that share a key, the second is put back only once the claim of the first has run out |
| `RetryAll.Queue.Failed` | jobs/memory.go:365-391 | the most recent failures, at most the limit |
| `RetryAll.Queue.RetryFailed` | jobs/memory.go:405-430 | gone, kept out by another job's live claim, or put back with the key claimed for its lifetime |
| `RetryAll.Attempt` | cli/jobs.go:223-240 | one attempt: recorded, then skipped, counted or broken off |
| `RetryAll.TryPage` | cli/jobs.go:217-241 | tries at most a page of ids, none of them tried before |
| `RetryAll.CountSeen` | cli/jobs.go:209-215 | how many ids of a page were attempted before |
| `RetryAll.Turn` | cli/jobs.go:200-256 | one read, one pass and the next limit: widened by a page when a full page shows nothing new, else one page past what lingers |
| `RetryAll.RetryAllFailed` | cli/jobs.go:191-262 | no id is attempted twice under any interference; done means everything failed at the last read was attempted; on a queue nothing else touches the paging gives the result of trying each job once in order, and ends within (n+1)(n+2) reads |
| `Savepoint.LimitFor` | auth/savepoint.go:122-158 | the largest limit that does not reach past the margin, never zero, which would lift it; none iff the database cannot express it |
| `Savepoint.SecondsBudget` | auth/savepoint.go:64-77 | a second's budget leaves PostgreSQL 700 milliseconds and MySQL its own limits; two seconds leave MySQL one |
| `Savepoint.MarkedReturns` | auth/savepoint.go:81-106 | making the savepoint and returning to it leaves the caller's other savepoints alone |
| `Savepoint.Database.BoundStatements` | auth/savepoint.go:122-158 | sets the dialect's limits and returns what puts the previous ones back, or fails with nothing set |
| `Savepoint.Database.WorkUnder` | auth/savepoint.go:87-103 | every row is written under the limits of the budget; success is the insert applied and the limits back, iff nothing failed; any failure leaves what a rollback and the restore can recover |
| `Savepoint.Database.Recover` | auth/savepoint.go:104-112 | back to the savepoint with its limits, or lost |
| `Savepoint.Database.InsertUnderSavepoint` | auth/savepoint.go:60-113 | whatever statement fails in whatever way: every row is written under the limits of what the budget leaves, or the caller's without one; success, iff nothing failed, is the insert applied with limits and savepoints as they were; an error without the lost mark is the transaction as it was, still usable; the error carries the mark iff the last statement failed, and on PostgreSQL only when the transaction is unusable |

## Left out

- The single-flight join of concurrent refreshes in one process (`auth/service.go:403-470`): it changes who shares an answer, not what is committed.
- The order and the fields of the session list, session id encoding, audit events, log lines and mail text.
- Passwords and bcrypt, JWT parsing, the password and email policies, HTTP routes and cookies.
- The screening of a reset token before its password is hashed (`auth/password.go:150-170`).
- Unicode in email normalization: only ASCII letters and spaces are folded.
- How times are stored and compared as text on SQLite, and isolation levels below the user's lock.
- Throttle known-client marks, `clear`, store probing and subjects; caches other than the in-memory one.
- Parsing of CIDR text and of the OpenAPI document: ranges and paths are given.
- Job queues other than the failed set and its uniqueness keys; the redis backend; the admin, generator, schema and migration commands.
- Throttler.Throttler.Reserve: does not interleave with other attempts and reads the clock once, because `Throttle` states what holds when they do and when the readings of a take differ.
- RetryAll.RetryAllFailed: does not bound the reads when others keep changing the queue, because nothing but the command's deadline does.
- Savepoint.Database.InsertUnderSavepoint: does not model when a statement times out, because any statement may fail at any point in it.
