/** The session/token lifecycle of the authentication context, as values.

    A `State` holds what the context keeps: the clock, the in-memory token, the
    two `localStorage` slots, the module-level `logoutTimer` handle and the
    timers the browser still has pending. Each entry point of the context is a
    function from the old state to the new one; the class in module
    AuthContext is proved to perform exactly these steps. */
module SessionSpec {

  datatype Option<T> = None | Some(value: T)

  /** Milliseconds since the epoch, as `Date.prototype.getTime` returns them. */
  type Millis = int

  /** A `setTimeout` handle. Browsers hand out positive ids, so a held handle is truthy. */
  type TimerId = nat

  /** The margin below which a stored session is discarded at startup.
      The code compares it with a remaining time in milliseconds. */
  const EXPIRY_MARGIN: Millis := 3600

  /** The two `localStorage` keys of the context, 'token' and 'expirationTime';
      `None` is a key that is absent. The expiry is kept as its millisecond value. */
  datatype Storage = Storage(token: Option<string>, expirationTime: Option<Millis>)

  const EMPTY_STORAGE := Storage(None, None)

  /** What `retrieveStoredToken` hands back when it keeps a stored session. */
  datatype TokenData = TokenData(token: Option<string>, duration: Millis)

  /** The outcome of startup recovery: the token data, if any, and the storage left behind. */
  datatype Recovery = Recovery(data: Option<TokenData>, storage: Storage)

  datatype State = State(
    now: nat,
    token: Option<string>,
    storage: Storage,
    logoutTimer: Option<TimerId>,
    pending: map<TimerId, Millis>,
    nextId: TimerId)

  function Max(a: int, b: int): int { if a < b then b else a }

  /** `calculateRemainingTime`: how long before `expirationTime` it is at `now`. */
  function RemainingTime(expirationTime: Millis, now: Millis): (r: Millis)
    ensures now + r == expirationTime
    ensures r > 0 <==> now < expirationTime
  {
    expirationTime - now
  }

  /** The stored expiry as `new Date(...).getTime()` reads it: an absent key is `null`, the epoch. */
  function StoredExpiration(stored: Storage): (e: Millis)
    ensures stored.expirationTime.Some? ==> e == stored.expirationTime.value
    ensures stored.expirationTime.None? ==> e == 0
  {
    if stored.expirationTime.Some? then stored.expirationTime.value else 0
  }

  /** `retrieveStoredToken`: keep a stored session with more than the margin left,
      otherwise purge both keys. */
  function Recover(stored: Storage, now: Millis): (r: Recovery)
    ensures r.data.None? <==> StoredExpiration(stored) - now <= EXPIRY_MARGIN
    ensures r.data.None? ==> r.storage == EMPTY_STORAGE
    ensures r.data.Some? ==> r.storage == stored && r.data.value.token == stored.token
    ensures r.data.Some? ==> now + r.data.value.duration == StoredExpiration(stored)
  {
    var remainingTime := RemainingTime(StoredExpiration(stored), now);
    if remainingTime <= EXPIRY_MARGIN then Recovery(None, EMPTY_STORAGE)
    else Recovery(Some(TokenData(stored.token, remainingTime)), stored)
  }

  /** `!!token`: a present, non-empty token. */
  predicate IsLoggedIn(token: Option<string>)
    ensures IsLoggedIn(token) <==> token != None && token != Some("")
  {
    token.Some? && token.value != ""
  }

  /** The instant a `setTimeout` issued at `now` with `delay` becomes due; a negative delay waits nothing. */
  function TimerDue(now: Millis, delay: Millis): (due: Millis)
    ensures now <= due
    ensures due == now || due == now + delay
    ensures delay <= 0 <==> due == now
  {
    if delay < 0 then now else now + delay
  }

  /** `logoutTimer = setTimeout(logoutHandler, delay)`: a fresh timer, held in the handle. */
  function ScheduleLogout(s: State, delay: Millis): (r: State)
    ensures r.logoutTimer == Some(s.nextId) && r.nextId == s.nextId + 1
    ensures r.pending.Keys == s.pending.Keys + {s.nextId} && r.pending[s.nextId] == TimerDue(s.now, delay)
    ensures forall id :: id in s.pending && id != s.nextId ==> r.pending[id] == s.pending[id]
    ensures r.now == s.now && r.token == s.token && r.storage == s.storage
  {
    s.(pending := s.pending[s.nextId := TimerDue(s.now, delay)],
       logoutTimer := Some(s.nextId),
       nextId := s.nextId + 1)
  }

  /** The initial state: recovery, the initial token, and the recovery effect's timer. */
  function Start(now: nat, stored: Storage): (r: State)
    ensures r.now == now && r.storage == Recover(stored, now).storage
    ensures r.token == if Recover(stored, now).data.Some? then stored.token else None
  {
    var recovery := Recover(stored, now);
    var initial := State(now, None, recovery.storage, None, map[], 1);
    match recovery.data
    case None => initial
    case Some(tokenData) => ScheduleLogout(initial.(token := tokenData.token), tokenData.duration)
  }

  /** `logoutHandler`: clear the token and both keys, cancel the timer held in the handle.
      The handle itself keeps its value. */
  function Logout(s: State): (r: State)
    ensures r.token == None && r.storage == EMPTY_STORAGE
    ensures r.now == s.now && r.logoutTimer == s.logoutTimer && r.nextId == s.nextId
    ensures r.pending.Keys == if s.logoutTimer.Some? then s.pending.Keys - {s.logoutTimer.value} else s.pending.Keys
    ensures forall id :: id in r.pending ==> r.pending[id] == s.pending[id]
  {
    var cleared := s.(token := None, storage := EMPTY_STORAGE);
    if s.logoutTimer.Some? then cleared.(pending := s.pending - {s.logoutTimer.value})
    else cleared
  }

  /** `loginHandler`: set the token and both keys, and schedule a logout at the expiry.
      Whatever timer the handle held before is left pending. */
  function Login(s: State, token: string, expirationTime: Millis): (r: State)
    ensures r.token == Some(token) && r.storage == Storage(Some(token), Some(expirationTime))
    ensures r.logoutTimer == Some(s.nextId) && s.nextId in r.pending && r.pending[s.nextId] == Max(expirationTime, s.now)
    ensures forall id :: id in s.pending && id != s.nextId ==> id in r.pending && r.pending[id] == s.pending[id]
    ensures r.now == s.now
  {
    var stored := s.(token := Some(token), storage := Storage(Some(token), Some(expirationTime)));
    ScheduleLogout(stored, RemainingTime(expirationTime, s.now))
  }

  /** A pending timer runs its callback, which is always `logoutHandler`. */
  function Fire(s: State, id: TimerId): (r: State)
    ensures r.token == None && r.storage == EMPTY_STORAGE && id !in r.pending
    ensures s.logoutTimer.Some? ==> s.logoutTimer.value !in r.pending
    ensures forall j :: j in s.pending && j != id && Some(j) != s.logoutTimer ==> j in r.pending && r.pending[j] == s.pending[j]
    ensures r.now == s.now && r.logoutTimer == s.logoutTimer && r.nextId == s.nextId
  {
    Logout(s.(pending := s.pending - {id}))
  }

  /** Some pending timer is due by `t`. */
  predicate AnyDue(pending: map<TimerId, Millis>, t: Millis)
  {
    exists id :: id in pending && pending[id] <= t
  }

  /** The timers of `pending` that are still waiting at `t`. */
  function Later(pending: map<TimerId, Millis>, t: Millis): map<TimerId, Millis>
  {
    map id | id in pending && pending[id] > t :: pending[id]
  }

  /** Let `elapsed` milliseconds pass: every timer due by then has fired (or was
      cancelled by one that fired first). */
  function Advance(s: State, elapsed: nat): (r: State)
    ensures r.now == s.now + elapsed && r.logoutTimer == s.logoutTimer && r.nextId == s.nextId
    ensures forall id :: id in r.pending ==> id in s.pending && r.now < r.pending[id] == s.pending[id]
    ensures AnyDue(s.pending, r.now) ==> r.token == None && r.storage == EMPTY_STORAGE
    ensures AnyDue(s.pending, r.now) ==>
              forall id :: id in s.pending && s.pending[id] > r.now && Some(id) != s.logoutTimer ==> id in r.pending
    ensures AnyDue(s.pending, r.now) && s.logoutTimer.Some? ==> s.logoutTimer.value !in r.pending
    ensures !AnyDue(s.pending, r.now) ==> r.token == s.token && r.storage == s.storage && r.pending == s.pending
  {
    var t := s.now + elapsed;
    if AnyDue(s.pending, t) then Logout(s.(now := t, pending := Later(s.pending, t)))
    else s.(now := t)
  }

  /** What can happen to the context after startup. */
  datatype Event =
    | LoginEvent(token: string, expirationTime: Millis)
    | LogoutEvent
    | Elapse(ms: nat)

  function Step(s: State, e: Event): State
  {
    match e
    case LoginEvent(token, expirationTime) => Login(s, token, expirationTime)
    case LogoutEvent => Logout(s)
    case Elapse(ms) => Advance(s, ms)
  }

  function Run(s: State, events: seq<Event>): State
    decreases |events|
  {
    if events == [] then s else Run(Step(s, events[0]), events[1..])
  }

  /** The invariant of the context: timer ids are fresh and positive, no pending
      timer is overdue, storage mirrors the in-memory token, and a held token has
      a stored expiry and a pending logout due by that expiry (or now, if it has passed). */
  ghost predicate Valid(s: State)
  {
    && 0 < s.nextId
    && (forall id :: id in s.pending ==> 0 < id < s.nextId && s.now <= s.pending[id])
    && (s.logoutTimer.Some? ==> 0 < s.logoutTimer.value < s.nextId)
    && s.storage.token == s.token
    && (s.token.Some? ==>
          s.storage.expirationTime.Some? && AnyDue(s.pending, Max(s.storage.expirationTime.value, s.now)))
  }
}
