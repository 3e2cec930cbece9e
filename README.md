# Session lifecycle of the React authentication context

A Dafny model of the authentication context of a React single-page app
(`src/store/auth-context.js`). The context keeps a bearer token in memory,
mirrors it and its expiry instant into two `localStorage` keys (`'token'` and
`'expirationTime'`), recovers a stored session when the app starts, and logs the
user out automatically through a `setTimeout` whose handle sits in the
module-level variable `logoutTimer`.

The model has three modules:

- `SessionSpec` (`session_spec.dfy`): the state as a value — clock, in-memory
  token, the two storage slots, the `logoutTimer` handle, the browser's pending
  timers (a map from timer id to due instant) and the next timer id — and one
  function per entry point: `Start` (recovery, initial token, recovery timer),
  `Login`, `Logout`, `Fire` (a timer's callback runs) and `Advance` (time
  passes and every due timer runs). `Run` replays a sequence of events. `Valid`
  is the invariant the context keeps.
- `SessionProperties` (`session_properties.dfy`): lemmas about those functions.
- `AuthContext` (`auth_context.dfy`): class `AuthContextProvider`, whose fields
  are updated in place by `Login`, `Logout`, `RetrieveStoredToken`, the timer
  primitives and `AdvanceBy`; each method is proved to produce exactly the state
  the matching `SessionSpec` function gives. `AdvanceBy` runs the due timers one
  at a time, earliest first, in a loop.

Times are integer milliseconds. `login` receives its expiry as an absolute
millisecond timestamp (the caller computes now + `expiresIn`·1000 ms). A stored
expiry that is missing reads as the epoch, as `new Date(null)` does. The clock
is a natural number.

Behaviour of the code that the model keeps as written:

- The early-expiry margin `3600` is compared with a remaining time in
  milliseconds, so the margin is 3.6 s. A stored session with one minute left
  is recovered (`OneMinuteLeftIsRecovered`).
- `loginHandler` overwrites `logoutTimer` without `clearTimeout`, so earlier
  timers stay pending (`LoginKeepsEarlierTimers`). More than one timer can be
  pending at once. When such a stale timer fires it runs `logoutHandler`, which
  ends the newer session and cancels the newer session's own timer
  (`EarlierLoginTimerEndsLaterSession`).
- `logoutHandler` cancels only the timer whose id is in `logoutTimer`, and it
  does not reset the handle.
- Recovery does not check that both keys are present. A missing expiry reads as
  the epoch, so the session is purged. A missing token with a live expiry is
  "recovered" as a null token: the user is logged out, but a logout timer is
  still scheduled.

## Model

| member | source | states |
|---|---|---|
| `SessionSpec.RemainingTime` | src/store/auth-context.js:12-19 | adding the remaining time to now gives the expiry; it is positive exactly when the expiry is in the future |
| `SessionSpec.Recover` | src/store/auth-context.js:21-37 | no session exactly when the remaining time is at most the 3600 ms margin, and then both keys are purged; otherwise storage is untouched, the stored token is returned, and now plus the duration is the stored expiry |
| `SessionSpec.TimerDue` | src/store/auth-context.js:74-77 | a scheduled timer is never due before now; a non-positive delay makes it due at once |
| `SessionSpec.StoredExpiration` | src/store/auth-context.js:14 | the stored expiry is read as its millisecond value, and an absent key as the epoch, as `new Date(null)` gives |
| `SessionSpec.IsLoggedIn` | src/store/auth-context.js:50 | `!!token`: logged in exactly when the token is neither absent nor the empty string |
| `SessionSpec.ScheduleLogout` | src/store/auth-context.js:77-83 | the handle holds the next id, due at `TimerDue(now, delay)`; the other timers, token, storage and clock are unchanged |
| `SessionSpec.Start` | src/store/auth-context.js:39-47 | the initial clock, the storage recovery leaves, and the initial token: the stored one when recovery kept the session, otherwise none |
| `SessionSpec.Login` | src/store/auth-context.js:66-78 | the token and both keys are set, the handle holds a fresh timer due at the later of expiry and now, and every earlier timer stays pending with its due time |
| `SessionSpec.Logout` | src/store/auth-context.js:52-63 | the token and both keys are cleared, only the handle's timer leaves the pending set, and the handle, clock and next id are unchanged |
| `SessionSpec.Fire` | src/store/auth-context.js:77-83 | a firing timer leaves the pending set and runs `logoutHandler`: token and keys cleared, the handle's timer cancelled, every other timer kept |
| `SessionSpec.Advance` | src/store/auth-context.js:77-83 | the clock moves on by the elapsed time and no overdue timer remains; if any timer was due the token and keys are cleared, the handle's timer is cancelled and every other not-yet-due timer stays pending; otherwise nothing else changes |
| `SessionProperties.StartSchedulesRecoveryTimer` | src/store/auth-context.js:80-85 | a kept session gets exactly one timer, held in the handle and due at the stored expiry; otherwise no timer is scheduled |
| `SessionProperties.LoginLastsUntilExpiry` | src/store/auth-context.js:66-78 | before the expiry, and with no earlier timer due, a login keeps its token and both keys |
| `SessionProperties.RecoveredSessionLastsUntilExpiry` | src/store/auth-context.js:80-85 | before the stored expiry a recovered session keeps its token and storage |
| `SessionProperties.TimerDueAtExpiry` | src/store/auth-context.js:74-77 | the logout timer of a login is due at the later of the expiry and now, and exactly at the expiry when that is in the future |
| `SessionProperties.RecoverIdempotent` | src/store/auth-context.js:21-37 | recovery leaves storage as it was or empty, and recovering again at the same instant changes nothing |
| `SessionProperties.EmptyStorageStartsLoggedOut` | src/store/auth-context.js:21-47 | starting on empty storage gives no token, empty storage and no timer |
| `SessionProperties.StartLoggedInIff` | src/store/auth-context.js:40-50 | the initial `isLoggedIn` holds exactly when recovery kept the session and the stored token is non-empty; the initial token is then the stored one and the stored expiry lies beyond the margin |
| `SessionProperties.OneMinuteLeftIsRecovered` | src/store/auth-context.js:25-36 | a stored session with 60 000 ms left is recovered, logged in, with its recovery timer due at the stored expiry |
| `SessionProperties.LoginEstablishesSession` | src/store/auth-context.js:66-78 | after login the token is the given one, both keys hold token and expiry, and the handle holds a fresh timer due at the expiry, or at once when the expiry has passed |
| `SessionProperties.LoginKeepsEarlierTimers` | src/store/auth-context.js:77 | login adds one timer and cancels none: every earlier pending timer keeps its due time |
| `SessionProperties.LoginRecoverRoundTrip` | src/store/auth-context.js:66-71 | what login stores, a later startup with more than the margin left recovers as the same token, with duration equal to the time left |
| `SessionProperties.LogoutClearsSession` | src/store/auth-context.js:52-63 | after logout the user is logged out, both keys are absent, the pending timers are exactly the old ones minus the handle's, the handle, clock and next id are unchanged, and a second logout changes nothing |
| `SessionProperties.FiringIsLogout` | src/store/auth-context.js:52-63 | a firing timer has the effect of logout and is itself no longer pending |
| `SessionProperties.StartIsValid` | src/store/auth-context.js:39-85 | the initial state satisfies the invariant: storage mirrors the token, and a held token has a pending logout due by its stored expiry |
| `SessionProperties.LoginPreservesValid` | src/store/auth-context.js:66-78 | login keeps the invariant |
| `SessionProperties.LogoutPreservesValid` | src/store/auth-context.js:52-63 | logout keeps the invariant |
| `SessionProperties.FirePreservesValid` | src/store/auth-context.js:77-83 | a timer firing keeps the invariant |
| `SessionProperties.AdvancePreservesValid` | src/store/auth-context.js:77 | letting time pass keeps the invariant |
| `SessionProperties.StepPreservesValid` | src/store/auth-context.js:52-85 | every login, logout or passage of time keeps the invariant |
| `SessionProperties.RunPreservesValid` | src/store/auth-context.js:52-85 | the invariant holds after any sequence of logins, logouts and passing time |
| `SessionProperties.ExpiryEndsSession` | src/store/auth-context.js:74-77 | in a valid state, once the stored expiry is reached the token and both keys are gone |
| `SessionProperties.SessionNeverOutlivesExpiry` | src/store/auth-context.js:39-85 | after any startup and any history, a logged-in session is logged out once time reaches its stored expiry |
| `SessionProperties.EarlierLoginTimerEndsLaterSession` | src/store/auth-context.js:66-78 | two logins in a row: at the first expiry the second session is logged out, its keys removed and its own timer cancelled |
| `SessionProperties.TwoHourSessionExpires` | src/store/auth-context.js:66-78 | a two-hour login from a clean start is logged in; 2 h 1 s later it is logged out, storage is empty and no timer remains |
| `AuthContext.AuthContextProvider.constructor` | src/store/auth-context.js:39-85 | mounting the provider yields exactly the recovered initial state, with the recovery timer, and the invariant |
| `AuthContext.AuthContextProvider.RetrieveStoredToken` | src/store/auth-context.js:21-37 | returns and leaves behind what `Recover` gives for the old storage |
| `AuthContext.AuthContextProvider.SetTimeout` | src/store/auth-context.js:77 | a fresh id, pending at its due time |
| `AuthContext.AuthContextProvider.ClearTimeout` | src/store/auth-context.js:60-62 | the timer is no longer pending; nothing else changes |
| `AuthContext.AuthContextProvider.Logout` | src/store/auth-context.js:52-63 | the new state is `SessionSpec.Logout` of the old, and the invariant is kept |
| `AuthContext.AuthContextProvider.Login` | src/store/auth-context.js:66-78 | the new state is `SessionSpec.Login` of the old, and the invariant is kept |
| `AuthContext.AuthContextProvider.Expire` | src/store/auth-context.js:77-83 | the callback of a pending timer at its due time: the timer is spent, `logoutHandler` runs, and the invariant is kept |
| `AuthContext.AuthContextProvider.IsLoggedIn` | src/store/auth-context.js:50 | the exposed `isLoggedIn`: the held token is neither absent nor the empty string |
| `AuthContext.AuthContextProvider.RunDueTimers` | src/store/auth-context.js:77-83 | running the due timers earliest first ends, if any was due, with the token and keys cleared and only the not-yet-due timers other than the handle's pending |
| `AuthContext.AuthContextProvider.AdvanceBy` | src/store/auth-context.js:77-83 | the new state is `SessionSpec.Advance` of the old, and the invariant is kept |

## Left out

- React plumbing is left out: the default context value and the provider's rendering (src/store/auth-context.js:5-10, 94-98), and the `useState`/`useCallback` mechanics. A state update is modelled as taking effect at once.
- Re-rendering is left out. `retrieveStoredToken` runs on every render and the recovery effect re-runs with it, scheduling another timer each time. The model runs recovery once, at startup. This hides a hazard: once `setToken` re-renders after a login, a re-run effect can overwrite `logoutTimer` with its own timer. A later `logout` then cancels that timer while the login's own timer stays pending, so login → logout → login can still end at the first login's expiry. In the model, `Logout` cancels the login's timer, and that sequence is safe.
- The `console.log` of the recovery duration is left out.
- `Date` string parsing is left out: expiries are integer milliseconds, so an unparseable expiry and the resulting `NaN` comparisons are not modelled.
- `login` takes its token as a string. Storing a non-string token, which `localStorage` would turn into a string, is not modelled.
- Real `setTimeout`/`clearTimeout` are replaced by a clock, a map of pending timers and a step that lets time pass. Timers fire only when time is advanced. A delay beyond 2^31−1 ms, which browsers wrap to a 32-bit value, is not modelled. Timers due at the same instant run in an unspecified order; every callback is `logoutHandler`, so the resulting state does not depend on it.
- Exceptions thrown by `localStorage` are not modelled; every storage operation succeeds.
- src/App.js (route guards), src/components/Auth/AuthForm.js (the identity-provider requests, error alerts and redirects), src/components/Profile/ProfileForm.js (the password change request) and src/components/Layout/MainNavigation.js (a navigation bar that reads `isLoggedIn` and calls `logout`) are not part of this model. Only the expiry arithmetic of AuthForm.js:65 informs it.
