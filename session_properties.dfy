/** What the session lifecycle guarantees, including the effects of `login` leaving earlier timers pending. */
module SessionProperties {
  import opened SessionSpec

  /** A timer scheduled with the remaining time falls due at the expiry, or at once if that has passed. */
  lemma TimerDueAtExpiry(expirationTime: Millis, now: Millis)
    ensures TimerDue(now, RemainingTime(expirationTime, now)) == Max(expirationTime, now)
    ensures now < expirationTime ==> TimerDue(now, RemainingTime(expirationTime, now)) == expirationTime
  {
  }

  /** Timer `id` is pending and none is due before it. */
  predicate IsEarliest(pending: map<TimerId, Millis>, id: TimerId)
  {
    id in pending && forall j :: j in pending ==> pending[id] <= pending[j]
  }

  /** Every non-empty set of pending timers has one that is due first. */
  lemma {:induction false} EarliestExists(pending: map<TimerId, Millis>)
    requires pending != map[]
    ensures exists id :: IsEarliest(pending, id)
    decreases pending.Keys
  {
    var k :| k in pending;
    var rest := pending - {k};
    if rest == map[] {
      forall j | j in pending ensures pending[k] <= pending[j] {
        assert j !in rest;
      }
      assert IsEarliest(pending, k);
    } else {
      assert rest.Keys < pending.Keys;
      EarliestExists(rest);
      var m :| IsEarliest(rest, m);
      var first := if pending[k] <= pending[m] then k else m;
      forall j | j in pending ensures pending[first] <= pending[j] {
        if j != k { assert j in rest; }
      }
      assert IsEarliest(pending, first);
    }
  }

  /** What is left after every due timer has run and the cancelled one is gone. */
  lemma DrainedIsLater(original: map<TimerId, Millis>, rest: map<TimerId, Millis>, t: Millis,
                       cancelled: Option<TimerId>)
    requires forall id :: id in rest ==> id in original && rest[id] == original[id]
    requires !AnyDue(rest, t)
    requires forall id :: id in original && original[id] > t && Some(id) != cancelled ==> id in rest
    requires cancelled.Some? ==> cancelled.value !in rest
    ensures cancelled.Some? ==> rest == Later(original, t) - {cancelled.value}
    ensures cancelled.None? ==> rest == Later(original, t)
  {
  }

  /** Recovery either keeps the stored session exactly as it was or leaves nothing behind,
      and a second recovery at the same instant changes nothing. */
  lemma RecoverIdempotent(stored: Storage, now: nat)
    ensures var r := Recover(stored, now);
            (r.storage == stored || r.storage == EMPTY_STORAGE) && Recover(r.storage, now) == r
  {
  }

  /** Startup on empty storage: logged out, nothing stored, no timer. */
  lemma EmptyStorageStartsLoggedOut(now: nat)
    ensures var s := Start(now, EMPTY_STORAGE);
            s.token == None && !IsLoggedIn(s.token) && s.storage == EMPTY_STORAGE
            && s.pending == map[] && s.logoutTimer == None
  {
  }

  /** The initial `isLoggedIn`: recovery kept a session whose stored token is non-empty. */
  lemma StartLoggedInIff(now: nat, stored: Storage)
    ensures IsLoggedIn(Start(now, stored).token) <==>
              Recover(stored, now).data.Some? && IsLoggedIn(stored.token)
    ensures IsLoggedIn(Start(now, stored).token) ==>
              Start(now, stored).token == stored.token
              && StoredExpiration(stored) > now + EXPIRY_MARGIN
  {
  }

  /** The margin is read in milliseconds: a stored session with one minute left is recovered,
      and the recovery timer is due at the stored expiry. */
  lemma OneMinuteLeftIsRecovered(now: nat, token: string)
    requires token != ""
    ensures var s := Start(now, Storage(Some(token), Some(now + 60_000)));
            IsLoggedIn(s.token) && s.logoutTimer.Some?
            && s.logoutTimer.value in s.pending && s.pending[s.logoutTimer.value] == now + 60_000
  {
  }

  /** `login`: the token and both keys are set, and the handle holds a new timer due at the
      expiry, or at once when the expiry has already passed. */
  lemma LoginEstablishesSession(s: State, token: string, expirationTime: Millis)
    requires Valid(s)
    ensures var r := Login(s, token, expirationTime);
            && r.token == Some(token)
            && (IsLoggedIn(r.token) <==> token != "")
            && r.storage == Storage(Some(token), Some(expirationTime))
            && r.logoutTimer == Some(s.nextId) && s.nextId !in s.pending
            && r.pending[s.nextId] == Max(expirationTime, s.now)
            && (expirationTime <= s.now ==> r.pending[s.nextId] == s.now)
  {
  }

  /** `login` cancels nothing: every timer pending before it is still pending, with the same due time. */
  lemma LoginKeepsEarlierTimers(s: State, token: string, expirationTime: Millis)
    requires Valid(s)
    ensures var r := Login(s, token, expirationTime);
            && r.pending.Keys == s.pending.Keys + {s.nextId}
            && forall id :: id in s.pending ==> r.pending[id] == s.pending[id]
  {
  }

  /** Round trip: what `login` writes, a later startup reads back while more than the margin remains. */
  lemma LoginRecoverRoundTrip(s: State, token: string, expirationTime: Millis, later: nat)
    requires expirationTime - later > EXPIRY_MARGIN
    ensures var stored := Login(s, token, expirationTime).storage;
            && Recover(stored, later) == Recovery(Some(TokenData(Some(token), expirationTime - later)), stored)
            && Start(later, stored).token == Some(token)
  {
  }

  /** `logout`: logged out, both keys gone, the held timer no longer pending, other timers
      untouched; a second `logout` changes nothing. */
  lemma LogoutClearsSession(s: State)
    ensures var r := Logout(s);
            && r.token == None && !IsLoggedIn(r.token)
            && r.storage == EMPTY_STORAGE
            && (s.logoutTimer.Some? ==> s.logoutTimer.value !in r.pending)
            && (forall id :: id in s.pending && Some(id) != s.logoutTimer ==> id in r.pending)
            && r.pending == (if s.logoutTimer.Some? then s.pending - {s.logoutTimer.value} else s.pending)
            && r.logoutTimer == s.logoutTimer && r.now == s.now && r.nextId == s.nextId
            && Logout(r) == r
  {
  }

  /** The recovery effect: a kept session gets exactly one timer, id 1, due at the stored expiry;
      otherwise no timer is scheduled. */
  lemma StartSchedulesRecoveryTimer(now: nat, stored: Storage)
    ensures Recover(stored, now).data.Some? ==>
              Start(now, stored).logoutTimer == Some(1)
              && Start(now, stored).pending == map[1 := StoredExpiration(stored)]
    ensures Recover(stored, now).data.None? ==>
              Start(now, stored).logoutTimer == None && Start(now, stored).pending == map[]
  {
  }

  /** A login is not ended early: while neither its expiry nor any earlier timer is due,
      the token and both keys stay as login set them. */
  lemma LoginLastsUntilExpiry(s: State, token: string, expirationTime: Millis, elapsed: nat)
    requires Valid(s)
    requires s.now + elapsed < expirationTime
    requires forall id :: id in s.pending ==> s.pending[id] > s.now + elapsed
    ensures Advance(Login(s, token, expirationTime), elapsed).token == Some(token)
    ensures Advance(Login(s, token, expirationTime), elapsed).storage
            == Storage(Some(token), Some(expirationTime))
  {
  }

  /** A recovered session is not ended before its stored expiry. */
  lemma RecoveredSessionLastsUntilExpiry(now: nat, stored: Storage, elapsed: nat)
    requires Recover(stored, now).data.Some?
    requires now + elapsed < StoredExpiration(stored)
    ensures Advance(Start(now, stored), elapsed).token == stored.token
    ensures Advance(Start(now, stored), elapsed).storage == stored
  {
    StartSchedulesRecoveryTimer(now, stored);
  }

  /** A firing timer has exactly the effect of `logout`, and is itself no longer pending. */
  lemma FiringIsLogout(s: State, id: TimerId)
    ensures var r := Fire(s, id);
            && r.token == Logout(s).token && r.storage == Logout(s).storage
            && r.pending == Logout(s).pending - {id}
            && r.logoutTimer == s.logoutTimer
  {
  }

  lemma StartIsValid(now: nat, stored: Storage)
    ensures Valid(Start(now, stored))
  {
    var recovery := Recover(stored, now);
    if recovery.data.Some? {
      var s := Start(now, stored);
      assert s.pending[1] == StoredExpiration(stored);
      assert AnyDue(s.pending, Max(StoredExpiration(stored), now));
    }
  }

  lemma LoginPreservesValid(s: State, token: string, expirationTime: Millis)
    requires Valid(s)
    ensures Valid(Login(s, token, expirationTime))
  {
    var r := Login(s, token, expirationTime);
    assert r.pending[s.nextId] <= Max(expirationTime, r.now);
  }

  lemma LogoutPreservesValid(s: State)
    requires Valid(s)
    ensures Valid(Logout(s))
  {
  }

  lemma FirePreservesValid(s: State, id: TimerId)
    requires Valid(s)
    ensures Valid(Fire(s, id))
  {
  }

  lemma AdvancePreservesValid(s: State, elapsed: nat)
    requires Valid(s)
    ensures Valid(Advance(s, elapsed))
  {
  }

  lemma StepPreservesValid(s: State, e: Event)
    requires Valid(s)
    ensures Valid(Step(s, e))
  {
    match e
    case LoginEvent(token, expirationTime) => LoginPreservesValid(s, token, expirationTime);
    case LogoutEvent => LogoutPreservesValid(s);
    case Elapse(ms) => AdvancePreservesValid(s, ms);
  }

  /** The invariant holds after any sequence of logins, logouts and elapsed time. */
  lemma {:induction false} RunPreservesValid(s: State, events: seq<Event>)
    requires Valid(s)
    ensures Valid(Run(s, events))
    decreases |events|
  {
    if events != [] {
      StepPreservesValid(s, events[0]);
      RunPreservesValid(Step(s, events[0]), events[1..]);
    }
  }

  /** Once the stored expiry is reached, the session is over: token and both keys are gone. */
  lemma ExpiryEndsSession(s: State, elapsed: nat)
    requires Valid(s) && s.token.Some?
    requires StoredExpiration(s.storage) <= s.now + elapsed
    ensures Advance(s, elapsed).token == None && Advance(s, elapsed).storage == EMPTY_STORAGE
  {
  }

  /** From any startup and any history, a session that is logged in ends by its stored expiry. */
  lemma SessionNeverOutlivesExpiry(now: nat, stored: Storage, events: seq<Event>, elapsed: nat)
    requires IsLoggedIn(Run(Start(now, stored), events).token)
    requires StoredExpiration(Run(Start(now, stored), events).storage)
             <= Run(Start(now, stored), events).now + elapsed
    ensures !IsLoggedIn(Advance(Run(Start(now, stored), events), elapsed).token)
  {
    StartIsValid(now, stored);
    RunPreservesValid(Start(now, stored), events);
    ExpiryEndsSession(Run(Start(now, stored), events), elapsed);
  }

  /** A second login does not supersede the first one's timer: when the first expiry comes,
      the second session is logged out too, and its own timer is cancelled with it. */
  lemma EarlierLoginTimerEndsLaterSession(s: State, first: string, e1: Millis, second: string, e2: Millis)
    requires Valid(s) && s.now <= e1 < e2
    ensures var s2 := Login(Login(s, first, e1), second, e2);
            var r := Advance(s2, e1 - s.now);
            && IsLoggedIn(s2.token) == (second != "")
            && r.token == None && r.storage == EMPTY_STORAGE
            && s.nextId + 1 !in r.pending
  {
    var s2 := Login(Login(s, first, e1), second, e2);
    assert s2.pending[s.nextId] == e1;
  }

  /** A two-hour session from a clean start: logged in, and two hours and a second later
      logged out with storage cleared and no timer left. */
  lemma TwoHourSessionExpires(now: nat)
    ensures var s1 := Login(Start(now, EMPTY_STORAGE), "tok-A", now + 7_200_000);
            var s2 := Advance(s1, 7_201_000);
            && IsLoggedIn(s1.token)
            && s2.token == None && s2.storage == EMPTY_STORAGE && s2.pending == map[]
  {
    var s1 := Login(Start(now, EMPTY_STORAGE), "tok-A", now + 7_200_000);
    assert s1.pending == map[1 := now + 7_200_000];
    assert 1 in s1.pending && s1.pending[1] <= now + 7_201_000;
  }
}
