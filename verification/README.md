# Verified model of goravel-authkit

A Dafny 4.11 model of the stateful parts of the authentication library goravel-authkit, with proofs
of what they keep over whole runs and over every interleaving of concurrent calls. `dafny verify
dfyconfig.toml` checks all of it.

| Files | What they model |
|---|---|
| `RememberTokens`, `RememberProtocol`, `RememberSafety`, `RememberAlarm`, `RememberRows` | "remember me" tokens: rotation by compare-and-set, grace window, theft detection, any number of calls interleaved |
| `RateLimit`, `AttemptBuckets` | the process-local sliding-window rate limiter against an unpruned log, and its bucket keys |
| `SessionKeys`, `Sessions`, `SessionSafety`, `SwitchAndBack`, `SignedIn`, `SessionAnswers`, `SignOuts`, `RememberWish` | one browser session shared by several guards: login, two-factor challenge, remember cookie, impersonation |
| `PasswordStamp` | password changes against the stamps of other sessions, logins and changes interleaved |
| `GoStrings`, `Scopes`, `TokenText`, `ApiTokens`, `ApiTokenProtocol`, `ApiTokenSafety` | personal access tokens: scopes, text form, quota, lifetime, revocation, pruning, interleaved |
| `TwoFactor`, `TwoFactorSafety` | single-use TOTP login codes and recovery codes |
| `UserAdmin` | user administration: the last administrator and the uniqueness of addresses |
| `LikePattern` | the literal filter pattern of the login-event search |

How the parts are modelled:

- A service or store that the program updates in place is a class; its methods are proved equal to
  functions on values, and the results about runs are proved of these functions.
- Concurrent services are state machines. One step is one statement on the shared table, one clock
  reading, or one internal error; a call keeps what it loaded and what it read from the clock while
  others run. Fields that only record history (who a row was issued to, every validator it had,
  what was revoked) decide no step.
- Assumptions: the clock is shared and does not go back; random draws of ids and selectors are new
  (for remember tokens also the validators); SHA-256 is injective (a free constructor); a decrypted
  column is what was encrypted. Clock readings, random draws and answers of the framework and the database are inputs.
- Who has proved his identity to a session is told by its requests alone (the password or code that
  came, the options of the site, the rows of the users table), never by what a handler recorded.
- A table is a map from primary keys to rows. Instants are integers (nanoseconds; Unix seconds in
  `TwoFactor`); int64 saturation, wrap-around and Go's truncating division are written out where the
  code depends on them.

Where a claim of the code, its comments or its documentation does not hold for all inputs, the
model follows the code and proves exactly when the claim holds:

- The rate-limit store sweeps every key with the caller's window, so a hit with a shorter window
  can forget attempts of another key (`RateLimit.ExactIffNoShorterWindow`).
- The Retry-After header overflows for waits within a second of the largest duration, and a client
  that obeys it is denied again (`RateLimit.HeaderRoundsUp`, `RateLimit.HeaderIsEnoughIff`).
- A login verified against an old password hash stays accepted if the database stores the same
  instant for two password changes (`PasswordStamp.StaleLoginIffCollision`). With a second factor it
  does so after any change between the password step and the challenge
  (`PasswordStamp.ChallengeIsCurrentIff`, `PasswordStamp.StaleChallengeIffChange`).
- A sign-out does not end a switch. The next ordinary login on the guard is taken for a switched
  session (`SignOuts.LoginTakenForSwitch`), against the comment in http/middleware/impersonation.go,
  and its Stop signs in the old actor, who has proved nothing since the sign-out
  (`SignOuts.OldActorReturns`, `SignOuts.SwitchedLogoutHappens`). That the user on an unswitched
  guard has proved who he is since its last sign-out holds exactly as long as no sign-out leaves the
  guard switched at home (`SignOuts.CleanRunsAreFresh`, `SignOuts.GoodSignOutIffNotSwitched`).
- `defaultRole` can return a management role (`UserAdmin.DefaultRoleIsPlain`).
- The challenge honours any earlier unfinished login's wish to be remembered, not only that of the
  login it completes (`RememberWish.ChallengeHonoursHistory`, `RememberWish.WishOutlivesItsLogin`).
- With n overlapping issues the token quota can be exceeded by n - 1, and by no more
  (`ApiTokenSafety.QuotaHolds`, `ApiTokenSafety.QuotaIsTight`).

## Model

| member | source | states |
|---|---|---|
| `RememberTokens.JoinUndoesSplit` | services/remember.go:185-195 | every cookie text the parser accepts is the print of the two non-empty parts it returns, the first without a colon |
| `RememberTokens.SplitUndoesJoin` | services/remember.go:185-195 | every print of a colon-free selector and a validator parses back to exactly these two |
| `RememberTokens.Repository.constructor` | repositories/remember.go:40-48 | binds to a table with the rows it has |
| `RememberTokens.Repository.Create` | repositories/remember.go:56-58 | adds one row under a new key and changes no other |
| `RememberTokens.Repository.FindBySelector` | repositories/remember.go:60-75 | finds a row with the selector if and only if there is one |
| `RememberTokens.Repository.RotateValidator` | repositories/remember.go:77-90 | compare-and-set: one row affected and rewritten exactly if it still holds the expected hash, nothing otherwise |
| `RememberTokens.Repository.Delete` | repositories/remember.go:92-95 | removes that row only |
| `RememberTokens.Repository.DeleteByUser` | repositories/remember.go:97-100 | a row is left exactly if it was there and is another user's, and it is unchanged |
| `RememberTokens.Repository.DeleteExpired` | repositories/remember.go:102-105 | a row is left exactly if it was there and had not expired before the instant, and it is unchanged |
| `RememberTokens.Service.Issue` | services/remember.go:53-74 | adds one never-rotated row expiring after the lifetime and returns the text that opens it |
| `RememberTokens.Service.Resolve` | services/remember.go:88-140 | undisturbed, the row named by the selector is judged: expired deletes it, current rotates it, superseded within grace changes nothing, anything else deletes the family |
| `RememberTokens.Service.Revoke` | services/remember.go:144-160 | deletes the row the cookie's selector names, whatever its validator, and no other; a malformed cookie deletes nothing |
| `RememberTokens.Service.RevokeAllForUser` | services/remember.go:164-169 | deletes the whole family of the user; every other user's rows stay as they were |
| `RememberTokens.Service.PruneExpired` | services/remember.go:174-179 | deletes exactly the rows whose expiry has passed; the others stay as they were |
| `RememberProtocol.StepKeepsInv` | services/remember.go:53-179 | every step of every call keeps the invariant: each row is what its history of validators says, times in the history ascend, and every call's snapshot is a state its row really had |
| `RememberProtocol.WinnerSawLatest` | services/remember.go:109-119 | a compare-and-set that succeeds acts on the row exactly as the call had loaded it |
| `RememberSafety.SupersededForGood` | repositories/remember.go:77-90 | each validator of a row is superseded at most once, and the stored previous hash is always its immediate predecessor |
| `RememberSafety.TimesNeverGoBack` | services/remember.go:101-116 | rotation time and expiry of a row never move backwards although the clock is read before the compare-and-set |
| `RememberSafety.OneWinnerPerCookie` | services/remember.go:115-125 | of all calls that ever present one cookie, at most one is given a new cookie |
| `RememberSafety.DeletedIsFinal` | repositories/remember.go:77-105 | no later step of any interleaving recreates a deleted row |
| `RememberSafety.LookupAfterDeleteFails` | services/remember.go:94-100 | a Resolve whose lookup comes after the row's deletion is refused |
| `RememberSafety.TheftEndsFamily` | services/remember.go:136-139 | after an effective alarm every later lookup of any row of that user's family is refused |
| `RememberSafety.HandedOutBeforeDelete` | services/remember.go:115-125 | every rotated cookie handed out was written to its row by a compare-and-set that came before the row's deletion |
| `RememberSafety.VerdictByHistory` | services/remember.go:102-139 | a call succeeds if and only if the presented validator was the newest of the row it saw, or the one before within the grace window, and the row had not expired |
| `RememberSafety.SuccessIsRecent` | services/remember.go:101-126 | a success at time t rests on an issue or rotation of that row stamped within the lifetime before t |
| `RememberSafety.ResolveIsARun` | services/remember.go:88-140 | whatever the undisturbed service method does, some run of the interleaved protocol does too, with the same answer and table |
| `RememberRows.TableStep` | services/remember.go:94-179 | every step, row by row: which row is removed, which is rotated and to what, and that every other row is unchanged |
| `RememberRows.OnlyCreateAdds` | services/remember.go:53-74 | only an issue adds a row, and it adds and hands out the one that was drawn |
| `RememberRows.ActAnswers` | services/remember.go:101-139 | a call is refused exactly for an expired row or an unknown validator, and gets a new cookie exactly if it rotated the row |
| `RememberRows.IssueIsARun` | services/remember.go:53-74 | an undisturbed issue adds its row, expiring the lifetime after its reading, and returns its text |
| `RememberRows.RevokeIsARun` | services/remember.go:144-160 | an undisturbed logout removes the row the cookie names and no other, and nothing for a malformed or unknown cookie |
| `RememberRows.PruneIsARun` | services/remember.go:174-179 | an undisturbed prune leaves exactly the rows not past their expiry, unchanged |
| `RememberRows.RemovedExactlyForCause` | repositories/remember.go:92-105 | in every run a row goes exactly if the step found it expired, raised the alarm for its own user on a foreign validator, was its logout or its user's revocation, or pruned with a reading after its expiry; a row that stays is unchanged unless rotated |
| `RememberRows.NobodyElsesBusiness` | services/remember.go:136-169 | through every run without a step about the row, alarms and revocations of other users and prunes leave it there unchanged |
| `RememberAlarm.NoFalseAlarm` | services/remember.go:107-134 | if all calls for a live row carry its current cookie and read the clock in time, then in every interleaving all that return are authenticated, exactly one gets the new cookie, and nobody's row is removed |
| `RateLimit.MemoryRateLimitStore.constructor` | http/middleware/rate_limit.go:26-39 | the store starts empty and never swept |
| `RateLimit.MemoryRateLimitStore.Hit` | http/middleware/rate_limit.go:41-73 | answer and new store of one call: pruning of its key, denial with the wait, or recording and an occasional sweep of all keys |
| `RateLimit.MemoryRateLimitStore.SweepLocked` | http/middleware/rate_limit.go:75-89 | keeps for every key exactly the attempts after the cutoff, in order, and drops the keys left empty |
| `RateLimit.Prune` | http/middleware/rate_limit.go:50-55 | the filtering loop keeps exactly the attempts after the cutoff, in order |
| `RateLimit.AllowedIff` | http/middleware/rate_limit.go:42-66 | a hit is allowed exactly if its arguments are valid and fewer than the limit of the stored attempts on its key lie in the window |
| `RateLimit.HitKeeps` | http/middleware/rate_limit.go:41-89 | which attempts of which key are stored after a hit, attempt by attempt, and when the sweep time moves |
| `RateLimit.StoreRefinesLog` | http/middleware/rate_limit.go:41-89 | after every run the store answers as an unpruned log that counts the accepted attempts in the last window, so pruning and sweeping never change an answer |
| `RateLimit.ExactIffNoShorterWindow` | http/middleware/rate_limit.go:66-89 | with another window on the store, that holds for a key in every run if and only if the other window is not shorter |
| `RateLimit.ShorterWindowLosesAttempts` | http/middleware/rate_limit.go:66-89 | for every shorter other window, a run in which an attempt that still counts is forgotten |
| `RateLimit.NoBurstAboveLimit` | http/middleware/rate_limit.go:48-66 | every interval of k windows, wherever it starts, holds at most k times the limit of accepted attempts on a key |
| `RateLimit.DeniedWaitIsExact` | http/middleware/rate_limit.go:58-64 | with nothing else accepted on the key, a hit from the wait on is allowed and an earlier one denied unless the one-second floor applied |
| `RateLimit.HeaderRoundsUp` | http/controllers/rate_limit.go:27-27 | the header is the wait rounded up to whole seconds if and only if the int64 sum does not overflow |
| `RateLimit.HeaderIsEnoughIff` | http/controllers/rate_limit.go:27-27 | a client that comes back when the header says is let in, in every run with nothing else accepted on its key, if and only if the window leaves a second less a nanosecond below the largest duration |
| `RateLimit.AllowedHitForgets` | http/middleware/rate_limit.go:66-89 | after an allowed hit every stored attempt of every key is younger than two windows |
| `AttemptBuckets.AttemptLimiter.Hit` | http/middleware/rate_limit.go:104-109 | consumes an attempt from the bucket of namespace, dimension and hashed identifier, and from no other |
| `AttemptBuckets.BucketsNeverShared` | http/middleware/rate_limit.go:104-109 | with colon-free dimensions two attempts share a bucket if and only if namespace, dimension and identifier agree |
| `SessionKeys.KeysNeverCollide` | helpers/session_keys.go:12-37 | for all guard names two session keys are equal only if they are the same kind of key of the same guard |
| `Sessions.Session.PutAttribute` | helpers/impersonation.go:27-36 | sets one attribute of one guard |
| `Sessions.Session.ForgetAttribute` | helpers/impersonation.go:56-62 | removes one attribute of one guard |
| `Sessions.Mounted.Complete` | http/controllers/auth.go:105-142 | the session attributes a completed login leaves: user, stamp, no pending login, no stashed wish, a tracking token |
| `Sessions.Mounted.HandleLogin` | http/controllers/auth.go:59-98 | a verified password completes the login, or only leaves a pending one when a second factor is due |
| `Sessions.Mounted.HandleChallenge` | http/controllers/twofactor.go:45-96 | completes the pending login exactly when its code was right |
| `Sessions.Mounted.HandleRememberLogin` | http/middleware/remember.go:41-121 | signs in the user of a good cookie on a guard nobody is signed in to, unless he is gone or disabled |
| `Sessions.Mounted.HandleAuthenticated` | http/middleware/authenticated.go:50-82 | lets the guard's user through exactly if he exists, is enabled and his stamp is the stored one; otherwise signs him out as the code does |
| `Sessions.Mounted.HandleTrackSession` | http/middleware/track_session.go:26-49 | signs out a session whose tracking row is gone and passes one without a token |
| `Sessions.Mounted.HandleLogout` | http/controllers/auth.go:157-190 | forgets the guard's user, stamp and token and nothing else |
| `Sessions.Mounted.HandleChangePassword` | http/controllers/auth.go:256-281 | restamps this session, or refuses while impersonating |
| `Sessions.Mounted.HandleStart` | http/controllers/impersonation.go:44-123 | the checks of a switch in their order, and the target, marker and stamp it puts |
| `Sessions.Mounted.HandleStop` | http/controllers/impersonation.go:127-168 | restores the actor on his own guard or empties the guard, and clears the marker |
| `Sessions.Mounted.Handle` | routes/routes.go:400-530 | one request through its middleware chain in the mounted order |
| `SessionSafety.EverySessionHonest` | http/controllers/auth.go:59-153 | in every reachable session a guard without a marker holds nobody or a user whom some request proved there (a password where site and row ask for no code, a password and then the code, or a cookie on the empty guard), and every marker names such a user on a guard allowed to switch here |
| `SessionSafety.PendingByHistory` | http/controllers/twofactor.go:45-53 | in every reachable session a login is pending for a user if and only if his password came with a code owed, and neither the code nor another password since |
| `SessionSafety.ServeMoves` | http/controllers/impersonation.go:44-168 | all that one request can do to any guard's user and marker: nothing, a sign-out or a proved user on its own guard, an allowed switch by an actor who is himself, or the Stop of a switch |
| `SessionSafety.ActorsAreThemselves` | http/middleware/impersonation.go:24-33 | whoever starts a switch is at that moment himself on his unswitched guard, proved by the requests, so switches never chain |
| `SessionSafety.CompleteLoginEffect` | http/controllers/auth.go:105-119 | a completed login moves no marker and no other guard's user or pending login |
| `SessionSafety.AuthenticatedEffect` | http/middleware/authenticated.go:50-82 | the middleware lets through only the guard's own user and otherwise at most signs that guard out |
| `SessionSafety.StartEffect` | http/controllers/impersonation.go:44-123 | a switch happens only without a marker on either guard and onto an allowed guard, puts a marker that names its actor, and changes no attribute of other guards |
| `SessionSafety.StopEffect` | http/controllers/impersonation.go:127-168 | the marker's actor comes back with a fresh stamp, or the guard is left empty; no other guard changes |
| `SignedIn.SeatedIsAccepted` | http/middleware/authenticated.go:50-82 | a signed-in user is let through if and only if his row exists, is enabled and holds the stamped instant; where the row exists and he is not, the guard is signed out |
| `SignedIn.SeatLasts` | http/middleware/authenticated.go:50-82 | through every run in which nothing gives the guard another user or stamp, the seat stays as it is until a request finds the row disabled or changed or the tracked session gone, and is empty from then on |
| `SignedIn.LoginIsAccepted` | http/controllers/auth.go:105-142 | from a completed login through every such run the guard serves that user exactly while no request has ended the seat and his row is as it was at the login |
| `SignedIn.SwitchIsAccepted` | http/controllers/impersonation.go:101-114 | from a switch through every such run the target's guard serves the target exactly as long |
| `SignedIn.CookieIsAccepted` | http/middleware/remember.go:41-121 | a good cookie on an empty guard is let through at once if and only if its user exists and is enabled, and leaves the guard empty otherwise |
| `SignedIn.TerminatedIsOut` | http/middleware/track_session.go:26-49 | once a request finds the row of a tracked session gone the guard is empty, through every undisturbed run |
| `SessionAnswers.LoginAnswers` | http/controllers/auth.go:59-142 | who is signed in, told to enter a code or refused by a login, whether a remember cookie is issued, and every attribute it leaves |
| `SessionAnswers.ChallengeAnswers` | http/controllers/twofactor.go:45-96 | over every run, the challenge signs in exactly the user of the open password step on a right code, and what it leaves |
| `SessionAnswers.ChallengeRefusals` | http/controllers/twofactor.go:45-90 | the refusal of a challenge for each of its causes |
| `SessionAnswers.GuardedAdmits` | http/middleware/authenticated.go:50-82 | a guarded route lets in exactly the signed-in user whose row is there, enabled and unchanged, or the owner of a good cookie on an empty guard, unless the tracked row is gone |
| `SessionAnswers.CookieIsServed` | http/middleware/remember.go:41-121 | through every undisturbed run a cookie sign-in is served exactly while nothing ended it and the row is unchanged |
| `SessionAnswers.CookieIsTracked` | http/middleware/remember.go:90-101 | a cookie sign-in on a tracking guard holds this request's token, and the guard is empty from the first request that finds the tracked row gone |
| `SessionAnswers.RefusedAttributes` | http/middleware/authenticated.go:60-82 | what a refused request of a disabled, changed or terminated user leaves of his session |
| `SessionAnswers.LogoutAttributes` | http/controllers/auth.go:155-188 | a logout forgets the guard's user, stamp and tracking token and nothing else |
| `SessionAnswers.PasswordAnswers` | http/controllers/auth.go:256-281 | when a password change is refused, and that an accepted one moves the guard's stamp only |
| `SessionAnswers.StartAnswers` | http/controllers/impersonation.go:44-122 | when a switch is refused and how, and every attribute it leaves |
| `SessionAnswers.StartRefusals` | services/impersonation.go:31-55 | when the policy forbids a switch, and that its failing hook is an internal error only after every other check passed |
| `SessionAnswers.StopAnswers` | http/controllers/impersonation.go:124-168 | what the end of a switch answers and every attribute it leaves |
| `SignedIn.LogoutEnds` | http/controllers/auth.go:157-190 | after a logout nobody is let through, and stamp and tracking token are gone |
| `SignedIn.ChangerIsAccepted` | http/controllers/auth.go:272-281 | after a password change this session is served exactly while the row holds the instant that was read back |
| `SwitchAndBack.MarkerLasts` | http/controllers/impersonation.go:127-168 | only a Stop on its own guard removes or replaces a marker, over every run; a sign-out does not |
| `SwitchAndBack.StopRestoresActor` | http/controllers/impersonation.go:44-168 | whatever happens in between, even a sign-out and another login, the first Stop served on the target's guard brings back exactly the actor who started the switch |
| `SwitchAndBack.OthersUntouched` | helpers/session_keys.go:12-37 | a request leaves every attribute alone that is not its own guard's or the switch target's |
| `SignOuts.CleanRunsAreFresh` | http/controllers/auth.go:157-190 | while no sign-out of a guard leaves it with the marker of a switch that started there, its user, when it is not switched, has proved who he is since its last sign-out |
| `SignOuts.OldActorReturns` | http/controllers/impersonation.go:127-168 | after every sign-out that does leave such a marker, an ordinary login of anybody else and his Stop sign in the old actor, who has proved nothing since |
| `SignOuts.SwitchedLogoutHappens` | http/controllers/auth.go:157-190 | such a sign-out is reached by a login, a switch to another user of the guard, and a logout |
| `SignOuts.GoodSignOutIffNotSwitched` | http/controllers/auth.go:157-190 | after a sign-out the expectation holds in every continuation with clean sign-outs if and only if this one leaves no such marker |
| `SignOuts.LoginTakenForSwitch` | http/middleware/impersonation.go:24-33 | a session just logged in is refused what switched sessions are if and only if its guard carries a marker and the site does not allow it |
| `RememberWish.StepEffect` | http/controllers/auth.go:84-119 | only a password step that asks stashes the wish and only a completed login on the guard forgets it |
| `RememberWish.WishByHistory` | http/controllers/auth.go:84-119 | over every run the wish is stashed if and only if some password step since the last completed login on that guard asked |
| `RememberWish.ChallengeHonoursHistory` | http/controllers/twofactor.go:89-95 | a successful challenge issues the cookie if and only if the guard remembers logins and some such step asked |
| `RememberWish.WishOutlivesItsLogin` | http/controllers/twofactor.go:89-95 | a run in which the last password step did not ask and the challenge still issues the cookie |
| `PasswordStamp.StepKeepsInv` | http/controllers/auth.go:115-119 | every stamp in a session is the stored instant of the password write it was taken from |
| `PasswordStamp.AcceptedLoginIsCurrent` | http/middleware/authenticated.go:70-77 | if the last write stored a new instant, an accepted session carries its stamp, and was verified against the hash now stored unless a challenge loaded the row anew after a write |
| `PasswordStamp.ChallengeIsCurrentIff` | http/controllers/twofactor.go:64-95 | such a session stamped by a challenge was verified against the stored hash if and only if no write came between the load of its password step and the load of its challenge |
| `PasswordStamp.StaleLoginIffCollision` | http/middleware/authenticated.go:145-153 | for every history of writes, some run accepts a login verified against another hash if and only if an earlier write with another hash stored the same instant as the last |
| `PasswordStamp.StaleChallengeIffChange` | http/controllers/twofactor.go:64-95 | for every history of writes, some run accepts a challenge's session verified against another hash if and only if some earlier write had another hash |
| `PasswordStamp.ChangerStaysAccepted` | services/auth.go:152-190 | for every rounding of the database the session that changed the password stays accepted until a later write |
| `PasswordStamp.OthersAreRejected` | http/controllers/auth.go:272-281 | every other session accepted before a write is rejected after it exactly if the write changed the stored instant |
| `PasswordStamp.WriteStores` | repositories/users.go:146-152 | a change or reset that read the clock at n stores its hash and the rounded n, and moves no session |
| `PasswordStamp.WriteEndsOthers` | services/auth.go:152-190 | a change or reset that read the clock at n ends the sessions accepted before, until stamped anew, exactly if the rounding of n differs from the instant stored before |
| `PasswordStamp.StampedIsAccepted` | http/controllers/auth.go:105-142 | a session stamped by a login, a challenge or its own password change is accepted at once exactly if the row still holds the instant it held when it was read |
| `PasswordStamp.RequestsAndLogouts` | http/middleware/authenticated.go:66-82 | a request ends exactly a session that is not accepted, a logout its own, and no other |
| `GoStrings.AscendingIsCanonical` | services/api_tokens.go:250-251 | a strictly ascending list of strings is determined by its set of elements |
| `GoStrings.SortedSorts` | services/api_tokens.go:250-251 | sorting a list without duplicates gives a strictly ascending list of the same elements |
| `GoStrings.TrimSpaceIs` | services/api_tokens.go:236-237 | trimming cuts exactly the longest run of white space at either end |
| `GoStrings.LessIs` | services/api_tokens.go:250-251 | the order is decided by the first difference, a proper prefix coming first |
| `Scopes.ValidateScopes` | services/api_tokens.go:233-252 | success exactly if every trimmed input fits the pattern and is allowed, with a strictly ascending list of exactly the requested scopes; otherwise the error of the first failing input |
| `Scopes.PatternIsRead` | services/api_tokens.go:34-34 | the scope pattern accepts an alphanumeric character and up to 63 more that may also be a colon, underscore or hyphen |
| `Scopes.FailureDecides` | services/api_tokens.go:236-243 | the first failing input decides the error, and a bad pattern is told before a missing permission |
| `Scopes.SameRequestSameList` | services/api_tokens.go:233-252 | inputs with the same trimmed set both fail or get the identical list |
| `Scopes.ValidatedIsFixed` | services/api_tokens.go:233-252 | validating a validated list returns it unchanged |
| `TokenText.EncodingRoundTrip` | services/api_tokens.go:254-260 | decoding undoes unpadded base64url encoding for every byte string, and the text has no dot |
| `TokenText.DecodedSize` | services/api_tokens.go:275-278 | a text decodes exactly if its characters without line breaks are of the alphabet and leave no single one over, to six bits each |
| `TokenText.RfcVectors` | services/api_tokens.go:254-260 | the vectors of section 10 of RFC 4648 |
| `TokenText.SplitIffPrint` | services/api_tokens.go:267-281 | the parser accepts a text with two parts if and only if it is "gak_" and these dot-free parts with a dot between, decoding to 12 and 32 bytes |
| `TokenText.IssuedTextParses` | services/api_tokens.go:162-177 | every issued text parses back to the selector and validator it was printed from |
| `ApiTokens.PruneKeepsActive` | repositories/api_tokens.go:93-96 | pruning changes no count of active tokens taken at a reading not older than its cutoff |
| `ApiTokens.StampsAreSpaced` | repositories/api_tokens.go:88-91 | two last-used stamps of a token are more than five minutes apart, a used token's stamp is at most five minutes old, and nothing else of any row changes |
| `ApiTokens.RevokeEffect` | repositories/api_tokens.go:75-81 | a revocation marks that row of that user if it is live, and leaves every other row |
| `ApiTokens.RevokeAllEffect` | repositories/api_tokens.go:83-86 | marks every live row of the user and leaves earlier marks and other users' rows |
| `ApiTokens.TouchEffect` | repositories/api_tokens.go:88-91 | stamps that row if its stamp is missing or older than the bound, and leaves every other row |
| `ApiTokens.PruneEffect` | repositories/api_tokens.go:93-96 | removes exactly the rows expired or revoked before the bound and leaves the others unchanged |
| `ApiTokens.Repository.constructor` | repositories/api_tokens.go:31-38 | binds to a table with the rows it has |
| `ApiTokens.Repository.Create` | repositories/api_tokens.go:46-48 | adds one row under a new key and changes no other |
| `ApiTokens.Repository.FindBySelector` | repositories/api_tokens.go:50-63 | finds a row with the selector if and only if there is one |
| `ApiTokens.Repository.CountActiveByUser` | repositories/api_tokens.go:71-73 | the number of the user's unrevoked rows that expire after the instant |
| `ApiTokens.Repository.Revoke` | repositories/api_tokens.go:75-81 | marks the row revoked exactly if it exists, is the user's and was not revoked, and says so in the row count |
| `ApiTokens.Repository.RevokeAllByUser` | repositories/api_tokens.go:83-86 | marks the user's unrevoked rows and leaves all others and earlier marks |
| `ApiTokens.Repository.TouchLastUsed` | repositories/api_tokens.go:88-91 | sets the stamp only if there is none or it is older than the bound |
| `ApiTokens.Repository.DeletePrunable` | repositories/api_tokens.go:93-96 | deletes exactly the rows expired or revoked before the bound |
| `ApiTokens.Service.constructor` | services/api_tokens.go:71-83 | lifetime and quota are the given ones or, where these are not positive, 365 days and 20; the allow-list is trimmed |
| `ApiTokens.Service.Issue` | services/api_tokens.go:113-178 | either the first violated condition in the code's order and an untouched table, or all conditions and exactly one new row with the text that opens it |
| `ApiTokens.IssueDecides` | services/api_tokens.go:113-158 | an issue succeeds exactly if name, lifetime, scopes, account, identity and quota are in order; otherwise its fault is that of the first that is not |
| `ApiTokens.Service.IssueImpersonated` | services/api_tokens.go:98-111 | forbidden unless configured and the original actor still exists enabled; otherwise an issue |
| `ApiTokens.Service.Resolve` | services/api_tokens.go:180-198 | answers a token if and only if the text names its row, carries its validator and the row is active; touches that row's stamp only |
| `ApiTokens.Service.Revoke` | services/api_tokens.go:208-217 | revokes the user's own live token, not found exactly if nothing changed |
| `ApiTokens.Service.RevokeAll` | services/api_tokens.go:219-224 | revokes every live token of the user, who has no active one at any instant after, and nobody else's |
| `ApiTokens.Service.Prune` | services/api_tokens.go:226-231 | deletes exactly what expired or was revoked more than thirty days ago |
| `ApiTokenProtocol.StepKeepsInv` | services/api_tokens.go:113-231 | every step of every call keeps the invariant: rows match what was issued and revoked, missing rows were revoked or have expired, and every decided Resolve decided rightly |
| `ApiTokenProtocol.CheckDecides` | services/api_tokens.go:189-191 | the branch on the loaded row is exactly the question whether the text is the plaintext of a token live at the lookup and unexpired now |
| `ApiTokenSafety.ResolveExactly` | services/api_tokens.go:180-198 | in every interleaving a Resolve succeeds if and only if its text is the plaintext of a token issued and unrevoked at the lookup and unexpired at the check |
| `ApiTokenSafety.IssueIsARun` | services/api_tokens.go:113-178 | the undisturbed issue is a run of the interleaved protocol with the same table, text and limit |
| `ApiTokenSafety.TableStep` | repositories/api_tokens.go:75-96 | every step, row by row: what a prune removes, what a revocation or a use marks, and that everything else is unchanged |
| `ApiTokenSafety.OnlyCreateAdds` | services/api_tokens.go:160-176 | only an issue adds a row: the one it was asked for, unrevoked and unused |
| `ApiTokenSafety.RevokedExactly` | services/api_tokens.go:208-224 | in every run a token is revoked exactly if some earlier step revoked it, or all tokens, in the name of its owner |
| `ApiTokenSafety.MarkTellsRevoked` | repositories/api_tokens.go:75-86 | a row carries a revocation mark exactly if its token was revoked |
| `ApiTokenSafety.RevocationIsPermanent` | repositories/api_tokens.go:75-86 | once a token is revoked no later lookup of its plaintext succeeds |
| `ApiTokenSafety.SuccessIsYoung` | services/api_tokens.go:119-122 | a success names a token created less than the maximal lifetime before |
| `ApiTokenSafety.PruneIsInvisible` | services/api_tokens.go:226-231 | however many prunes a run contains, what a count or a lookup finds at any reading up to the retention period old is exactly what was issued, not revoked and not expired at that reading |
| `ApiTokenSafety.QuotaHolds` | services/api_tokens.go:154-176 | with at most n issues between count and create, active tokens and such issues never exceed the limit by more than n - 1, and with n = 1 not at all, although counts use earlier clock readings |
| `ApiTokenSafety.QuotaIsTight` | services/api_tokens.go:154-176 | for every limit and every n, a run with at most n overlapping issues ends with limit + n - 1 active tokens |
| `TwoFactor.MatchTotpStep` | services/twofactor.go:231-246 | the start of the first step the code fits, in the order current, previous, next; a secret the generator rejects matches nothing |
| `TwoFactor.GenerateRecoveryCodes` | services/twofactor.go:306-320 | returns the configured number of drawn codes and stores their hashes in order, all unused |
| `TwoFactor.Users.UpdateTwoFactor` | repositories/users.go:154-161 | sets three columns of one row and leaves the last-used stamp |
| `TwoFactor.Service.constructor` | services/twofactor.go:62-70 | the number of recovery codes is the given one, or 8 where that is not positive |
| `TwoFactor.Service.Enable` | services/twofactor.go:75-100 | stores a new pending secret unless already enabled |
| `TwoFactor.Service.Confirm` | services/twofactor.go:104-136 | activates the pending secret exactly if the code validates, with the configured number of fresh recovery codes |
| `TwoFactor.Service.VerifyLoginCode` | services/twofactor.go:156-186 | answer and row of a login code as `TwoFactorSafety.AcceptedIff` describes them, nothing moving without an acceptance |
| `TwoFactor.Service.ConsumeRecoveryCode` | services/twofactor.go:190-226 | marks the first unused entry of the presented hash, or changes nothing |
| `TwoFactor.Service.Disable` | services/twofactor.go:249-261 | clears three columns of the user's row |
| `TwoFactor.Service.RemainingRecoveryCodes` | services/twofactor.go:266-285 | the number of unused codes of an enabled user |
| `TwoFactor.Service.RegenerateRecoveryCodes` | services/twofactor.go:288-304 | replaces the codes of an enabled user by the configured number of fresh ones |
| `TwoFactorSafety.StampMovesForward` | services/twofactor.go:156-186 | one call moves the stamp only by accepting a code, and then strictly forward |
| `TwoFactorSafety.AcceptedIff` | services/twofactor.go:156-186 | on an enabled row a code is accepted if and only if it is that of one of the three steps, now, previous, next, and the start of the first such step is later than the stamp, which then becomes that start |
| `TwoFactorSafety.NewCodeIsAccepted` | services/twofactor.go:156-186 | after every run of calls, a code of a single step is accepted if and only if the step is newer than the first stamp and every accepted one |
| `TwoFactorSafety.AcceptedStepsIncrease` | services/twofactor.go:156-186 | accepted steps strictly increase over every run, across disabling, re-enrolment and the writes of unlocked calls, each within one step of its own time |
| `TwoFactorSafety.AcceptancesAreBounded` | services/twofactor.go:231-246 | the acceptances read between a and b number at most the steps from a to b plus three |
| `TwoFactorSafety.EachCodeOnce` | services/twofactor.go:190-226 | between regenerations a hash succeeds exactly as often as presented, up to its unused entries; each success lowers the remaining count by one, and used plus remaining stays constant |
| `TwoFactorSafety.ConsumeMarks` | services/twofactor.go:190-226 | a recovery code succeeds exactly if an unused entry has its hash, and marks the first such entry with the time and nothing else |
| `TwoFactorSafety.EnrolmentSteps` | services/twofactor.go:75-136 | answer and every column after enabling, confirming, disabling and regenerating |
| `TwoFactorSafety.DrawnCodesOpenOnce` | services/twofactor.go:306-320 | a text succeeds at most as often as drawn codes normalise to it, and all texts together at most as often as the number of codes |
| `TwoFactorSafety.SwitchedOnByCode` | services/twofactor.go:75-136 | two-factor login is switched on only by a code that validates against the pending secret and off only by disabling; only an enrolment or disabling replaces the secret |
| `TwoFactorSafety.CodesAreFresh` | services/twofactor.go:104-136 | the row after a confirmation or regeneration is enabled, holds exactly the shown codes, and keeps its stamp |
| `UserAdmin.DefaultRoleIsPlain` | services/users.go:59-69 | the default role is a management role if and only if every configured role and "user" are |
| `UserAdmin.DefaultRoleIsFirst` | services/users.go:62-69 | the default role is the first configured role that manages nobody, "user" if there is none |
| `UserAdmin.Users.FindByEmail` | repositories/users.go:76-91 | finds a row with the address if and only if there is one |
| `UserAdmin.Users.CountActiveByRolesExcluding` | repositories/users.go:120-131 | the number of other enabled users with one of the roles, none for an empty list |
| `UserAdmin.Users.Save` | repositories/users.go:133-139 | writes one row |
| `UserAdmin.Users.Remove` | repositories/users.go:141-144 | removes one row |
| `UserAdmin.Service.IsManagementRole` | services/users.go:50-57 | whether the role is one of the management roles |
| `UserAdmin.Service.RoleAllowed` | services/users.go:73-83 | whether the role is configured, any role when none is |
| `UserAdmin.Service.DefaultRole` | services/users.go:62-69 | the first configured role that is no management role, or "user" |
| `UserAdmin.Service.Create` | services/users.go:108-156 | answer and table of a creation, with normalised address and a default role |
| `UserAdmin.Service.GuardLastAdmin` | services/users.go:181-199 | refuses self-disabling, and stepping down without another active administrator |
| `UserAdmin.Service.Update` | services/users.go:163-238 | answer and table of an update, its checks in the code's order; disabling revokes all API tokens of the user and nobody else's |
| `UserAdmin.Service.Delete` | services/users.go:243-276 | answer and table of a deletion, which revokes all API tokens of the user and nobody else's |
| `UserAdmin.Service.UpdateProfile` | services/auth.go:83-132 | answer and table of a profile change; a new address is unverified, no change writes nothing |
| `UserAdmin.OthersUntouched` | services/auth.go:83-132 | a call touches only the row it names; a profile change keeps role and lock, and the verification only of an unchanged address |
| `UserAdmin.CreateDone` | services/users.go:108-156 | a creation succeeds exactly if address, password and role are good and the address is free, and then adds an enabled unverified user with the trimmed name and the asked or default role |
| `UserAdmin.UpdateDone` | services/users.go:211-231 | after a successful update the row holds the normalised address, the trimmed name, the requested role or the old one, and is locked, unlocked or as before with an earlier lock time kept |
| `UserAdmin.UpdateAnswers` | services/users.go:163-209 | the answer of an update for each of its causes |
| `UserAdmin.DeleteDone` | services/users.go:243-276 | after a successful deletion the id is gone and every other row is unchanged; an unknown id is not found |
| `UserAdmin.ProfileDone` | services/auth.go:83-132 | when a profile change succeeds, changes nothing or fails, and every field it leaves |
| `UserAdmin.UpdateRefusedExactly` | services/users.go:179-199 | with an active administrator present, an update past its own checks is refused for the last one if and only if it would leave none |
| `UserAdmin.DeleteRefusedExactly` | services/users.go:243-266 | a deletion is refused if and only if it would leave no active administrator, or without management roles no user |
| `UserAdmin.AlwaysAnAdmin` | services/users.go:158-276 | no run of creations, updates, deletions and profile changes leaves the table without an active administrator |
| `UserAdmin.EmailsStayUnique` | services/users.go:201-209 | addresses stay normalised and pairwise distinct over every such run |
| `LikePattern.ThreePassesAreOne` | repositories/login_events.go:118-124 | the three chained replacements equal escaping in a single pass |
| `LikePattern.PatternMatchesLiterally` | repositories/login_events.go:101-124 | a text matches the generated pattern if and only if it contains the lowercased value literally, and the pattern has no dangling escape |

## Left out

- Goravel, GORM, SQL text, migrations, configuration, routing, artisan commands and the demo: every repository method is one step on a table.
- HTTP binding, responses, cookie attributes, audit entries, logging, JSON and CSRF checks: they carry no state the results depend on.
- bcrypt, SHA-256, encryption, the TOTP HMAC, base32 secrets and random sources: free constructors, functions or inputs.
- The rejection sampling of `randomRecoveryCode`: its uniformity is a statement about probabilities.
- Interleaved whole-row saves of `Users.Update` and `UpdateProfile`, and lost updates between them: each is one step.
- The unlocked read of `RegenerateRecoveryCodes` and `Confirm` is interleaved for the TOTP stamp (their bare write may fall anywhere), not for the recovery codes.
- The place of the rate limiter in front of the handlers, and its answer when a replaced store fails.
- The rows of the active-session table, session listing and termination: the session model takes whether the tracked row is alive as an input.
- Bearer-token middleware, scope checks, token listing and login-event pagination: single-branch code.
- The display e-mail inside an impersonation marker.
- API-token and remember-token revocation triggered by password changes: its own effect is modelled, the call from the other service is not.
- RememberTokens.Service.Resolve: has no internal repository errors, which the interleaved protocol adds as failing steps and deletes without effect.
- Sessions.Mounted.Handle: rate limiting and origin checks in front of the handlers, and the routes that move no session attribute, are absent.
- ApiTokens.Service.IssueImpersonated: takes the configuration of the actor's guard, whether he still exists enabled, and the policy's answer as inputs.
- ApiTokens.Service.Issue: takes the outcome of the password, second-factor and impersonation checks as an input.
- UserAdmin.Service.Create: the password rules and the address syntax are functions of the configuration.
