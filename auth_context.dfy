/** The authentication context as `auth-context.js` runs it: an object whose handlers update
    the token, the two `localStorage` keys and the `logoutTimer` handle in place.
    `setTimeout`/`clearTimeout` are modelled by a clock and a map of pending timers. */
module AuthContext {
  import opened SessionSpec
  import SessionProperties

  class AuthContextProvider {
    var now: nat
    var token: Option<string>
    var storage: Storage
    var logoutTimer: Option<TimerId>
    var pending: map<TimerId, Millis>
    var nextId: TimerId

    /** The object's state as a `SessionSpec.State` value. */
    ghost function Model(): State
      reads this
    {
      State(now, token, storage, logoutTimer, pending, nextId)
    }

    ghost predicate Valid()
      reads this
    {
      SessionSpec.Valid(Model())
    }

    /** `isLoggedIn` as the context exposes it. */
    predicate IsLoggedIn()
      reads this
      ensures IsLoggedIn() <==> token != None && token != Some("")
    {
      SessionSpec.IsLoggedIn(token)
    }

    /** Mounting the provider at `startTime` over what a previous run left in storage:
        recover, take the initial token, and let the effect schedule the recovery timer. */
    constructor (startTime: nat, stored: Storage)
      ensures Model() == Start(startTime, stored)
      ensures Valid()
    {
      now := startTime;
      storage := stored;
      token := None;
      logoutTimer := None;
      pending := map[];
      nextId := 1;
      new;
      var tokenData := RetrieveStoredToken();
      if tokenData.Some? {
        token := tokenData.value.token;
        var id := SetTimeout(tokenData.value.duration);
        logoutTimer := Some(id);
      }
      SessionProperties.StartIsValid(startTime, stored);
    }

    /** `retrieveStoredToken`: purge both keys when the margin is not exceeded. */
    method RetrieveStoredToken() returns (tokenData: Option<TokenData>)
      modifies this`storage
      ensures Recovery(tokenData, storage) == Recover(old(storage), now)
    {
      var remainingTime := RemainingTime(StoredExpiration(storage), now);
      if remainingTime <= EXPIRY_MARGIN {
        storage := storage.(token := None);
        storage := storage.(expirationTime := None);
        return None;
      }
      return Some(TokenData(storage.token, remainingTime));
    }

    /** `setTimeout(logoutHandler, delay)`: a fresh id, pending until its due time. */
    method SetTimeout(delay: Millis) returns (id: TimerId)
      modifies this`pending, this`nextId
      ensures id == old(nextId) && nextId == old(nextId) + 1
      ensures pending == old(pending)[id := TimerDue(now, delay)]
    {
      id := nextId;
      pending := pending[id := TimerDue(now, delay)];
      nextId := nextId + 1;
    }

    /** `clearTimeout(id)`: no longer pending; a no-op for a timer that already ran or was cleared. */
    method ClearTimeout(id: TimerId)
      modifies this`pending
      ensures pending == old(pending) - {id}
    {
      pending := pending - {id};
    }

    /** `logoutHandler`. */
    method Logout()
      modifies this
      ensures Model() == SessionSpec.Logout(old(Model()))
      ensures old(Valid()) ==> Valid()
    {
      token := None;
      storage := storage.(token := None);
      storage := storage.(expirationTime := None);
      if logoutTimer.Some? {
        ClearTimeout(logoutTimer.value);
      }
      if old(Valid()) {
        SessionProperties.LogoutPreservesValid(old(Model()));
      }
    }

    /** `loginHandler`: the previous handle is overwritten, not cleared. */
    method Login(newToken: string, expirationTime: Millis)
      requires Valid()
      modifies this
      ensures Model() == SessionSpec.Login(old(Model()), newToken, expirationTime)
      ensures Valid()
    {
      token := Some(newToken);
      storage := storage.(token := Some(newToken));
      storage := storage.(expirationTime := Some(expirationTime));
      var remainingTime := RemainingTime(expirationTime, now);
      var id := SetTimeout(remainingTime);
      logoutTimer := Some(id);
      SessionProperties.LoginPreservesValid(old(Model()), newToken, expirationTime);
    }

    /** The callback of timer `id` runs: the timer is spent, then `logoutHandler` runs. */
    method Expire(id: TimerId)
      requires id in pending && pending[id] == now
      modifies this
      ensures Model() == Fire(old(Model()), id)
      ensures old(Valid()) ==> Valid()
      ensures now == old(now) && nextId == old(nextId) && logoutTimer == old(logoutTimer)
      ensures token == None && storage == EMPTY_STORAGE
      ensures pending == if logoutTimer.Some? then old(pending) - {id} - {logoutTimer.value}
                         else old(pending) - {id}
    {
      ghost var s0 := Model();
      pending := pending - {id};
      Logout();
      if SessionSpec.Valid(s0) {
        SessionProperties.FirePreservesValid(s0, id);
      }
    }

    /** The browser runs every timer due by `t`, earliest first, each at its due time. */
    method RunDueTimers(t: Millis)
      requires Valid() && now <= t
      modifies this
      ensures now <= t && nextId == old(nextId) && logoutTimer == old(logoutTimer)
      ensures !AnyDue(old(pending), t) ==> Model() == old(Model())
      ensures AnyDue(old(pending), t) ==>
                && token == None && storage == EMPTY_STORAGE
                && pending == SessionSpec.Logout(old(Model()).(pending := Later(old(pending), t))).pending
    {
      ghost var s0 := Model();
      ghost var fired := false;
      while exists id :: id in pending && pending[id] <= t
        invariant s0.now <= now <= t
        invariant nextId == s0.nextId && logoutTimer == s0.logoutTimer
        invariant forall id :: id in pending ==> id in s0.pending && pending[id] == s0.pending[id] && now <= pending[id]
        invariant forall id :: id in s0.pending && s0.pending[id] > t && (!fired || Some(id) != logoutTimer) ==> id in pending
        invariant !fired ==> now == s0.now && token == s0.token && storage == s0.storage && pending == s0.pending
        invariant fired ==> token == None && storage == EMPTY_STORAGE && AnyDue(s0.pending, t)
        invariant fired && logoutTimer.Some? ==> logoutTimer.value !in pending
        decreases pending.Keys
      {
        SessionProperties.EarliestExists(pending);
        var id :| SessionProperties.IsEarliest(pending, id);
        now := pending[id];
        Expire(id);
        fired := true;
      }
      if fired {
        SessionProperties.DrainedIsLater(s0.pending, pending, t, logoutTimer);
      }
    }

    /** Let `elapsed` milliseconds pass. */
    method AdvanceBy(elapsed: nat)
      requires Valid()
      modifies this
      ensures Model() == Advance(old(Model()), elapsed)
      ensures Valid()
    {
      var t := now + elapsed;
      RunDueTimers(t);
      now := t;
      SessionProperties.AdvancePreservesValid(old(Model()), elapsed);
    }
  }
}
