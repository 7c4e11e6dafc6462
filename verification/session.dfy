/**
 The session and lockout state machine of the dashboard shell (App.tsx).
 The browser's `localStorage` is a string-to-string map, `Date.now()` and
 `new Date().toDateString()` are supplied by the caller as an `Env`, and each
 React handler or effect is one pure transition. The one-second interval is
 the `countdown` field: `Some(start)` while an interval measuring from
 `start` is live, `None` once it is cleared.
 */
module Session {
  import opened Wrappers
  import opened JsNumber

  /** Four hours, in milliseconds. */
  const SESSION_LIMIT_MS: int := 4 * 60 * 60 * 1000

  type Store = map<string, string>

  const SESSION_USER := "session_user"
  const SESSION_START := "session_start"
  const LOCKOUT_DATE := "lockout_date"

  /** The logout reason that records a lockout. */
  const LOCKOUT := "LOCKOUT"

  /** The host at the moment a step runs: the clock in milliseconds and
      today's date string. */
  datatype Env = Env(now: nat, today: string)

  datatype AppSession = AppSession(
    store: Store,
    user: Option<string>,
    timeLeft: int,
    countdown: Option<int>)

  /** `localStorage.getItem(key)`: null for a missing key. */
  function GetItem(store: Store, key: string): Option<string> {
    if key in store then Some(store[key]) else None
  }

  /** JavaScript truthiness of a `string | null`: null and "" are falsy. */
  predicate Truthy(v: Option<string>) {
    v.Some? && v.value != ""
  }

  /** The keys a session step may touch. */
  predicate IsSessionKey(k: string) {
    k == SESSION_USER || k == SESSION_START || k == LOCKOUT_DATE
  }

  /** `parseInt(localStorage.getItem('session_start') || '0')`, NaN as None. */
  function StoredStart(store: Store): (start: Option<int>)
    ensures !Truthy(GetItem(store, SESSION_START)) ==> start == Some(0)
    ensures forall n: nat | GetItem(store, SESSION_START) == Some(NatToString(n)) :: start == Some(n)
  {
    var raw := GetItem(store, SESSION_START);
    assert ParseInt("0") == Some(0) by {
      ParseIntOfNatToString(0);
      assert NatToString(0) == "0";
    }
    assert forall n: nat | raw == Some(NatToString(n)) :: ParseInt(raw.value) == Some(n) by {
      forall n: nat | raw == Some(NatToString(n)) ensures ParseInt(raw.value) == Some(n) {
        ParseIntOfNatToString(n);
      }
    }
    ParseInt(if Truthy(raw) then raw.value else "0")
  }

  /** `!start` on the parsed start: NaN and 0 are both falsy. */
  predicate UsableStart(start: Option<int>) {
    start.Some? && start.value != 0
  }

  /**
   `handleLogout(reason)`. The reason 'LOCKOUT' first stores today's date under
   `lockout_date`; then both session keys are removed and the user is cleared.
   Clearing the user re-runs the expiry effect, whose cleanup stops any live
   interval, so the countdown ends here too.
   */
  function HandleLogout(s: AppSession, reason: Option<string>, today: string): (r: AppSession)
    ensures SESSION_USER !in r.store && SESSION_START !in r.store
    ensures r.user == None && r.countdown == None && r.timeLeft == s.timeLeft
    ensures reason == Some(LOCKOUT) ==> GetItem(r.store, LOCKOUT_DATE) == Some(today)
    ensures reason != Some(LOCKOUT) ==> GetItem(r.store, LOCKOUT_DATE) == GetItem(s.store, LOCKOUT_DATE)
    ensures forall k | !IsSessionKey(k) :: GetItem(r.store, k) == GetItem(s.store, k)
  {
    var marked := if reason == Some(LOCKOUT) then s.store[LOCKOUT_DATE := today] else s.store;
    s.(store := marked - {SESSION_USER, SESSION_START}, user := None, countdown := None)
  }

  /** The `onLogin` callback handed to the login page: records the user and
      `Date.now().toString()` as the session start. */
  function OnLogin(s: AppSession, username: string, env: Env): (r: AppSession)
    ensures GetItem(r.store, SESSION_USER) == Some(username)
    ensures StoredStart(r.store) == Some(env.now as int)
    ensures r.user == Some(username)
    ensures r.countdown == s.countdown && r.timeLeft == s.timeLeft
    ensures GetItem(r.store, LOCKOUT_DATE) == GetItem(s.store, LOCKOUT_DATE)
    ensures forall k | !IsSessionKey(k) :: GetItem(r.store, k) == GetItem(s.store, k)
  {
    var r := s.(store := s.store[SESSION_USER := username][SESSION_START := NatToString(env.now)],
                user := Some(username));
    ParseIntOfNatToString(env.now);
    assert GetItem(r.store, SESSION_START) == Some(NatToString(env.now));
    r
  }

  /**
   The session-expiry effect, run at mount and whenever `user` changes. Its
   cleanup stops the previous interval. With no user it does nothing more;
   with a user but no usable start (absent, empty, unparsable or zero) it
   logs out without a lockout; otherwise it starts an interval from the
   stored start.
   */
  function SessionEffect(s: AppSession, env: Env): (r: AppSession)
    ensures !Truthy(s.user) ==> r == s.(countdown := None)
    ensures Truthy(s.user) && UsableStart(StoredStart(s.store)) ==>
              r == s.(countdown := StoredStart(s.store))
    ensures Truthy(s.user) && !UsableStart(StoredStart(s.store)) ==>
              r.user == None && r.countdown == None && r.timeLeft == s.timeLeft
              && SESSION_USER !in r.store && SESSION_START !in r.store
              && GetItem(r.store, LOCKOUT_DATE) == GetItem(s.store, LOCKOUT_DATE)
    ensures forall k | k != SESSION_USER && k != SESSION_START :: GetItem(r.store, k) == GetItem(s.store, k)
  {
    if !Truthy(s.user) then s.(countdown := None)
    else
      var start := StoredStart(s.store);
      if !UsableStart(start) then HandleLogout(s, None, env.today)
      else s.(countdown := start)
  }

  /** The state when the dashboard mounts: the user read back from the store,
      a full countdown display, then the expiry effect's first run. */
  function Mount(store: Store, env: Env): (r: AppSession)
    ensures r.timeLeft == SESSION_LIMIT_MS
    ensures r.user.Some? <==> (Truthy(GetItem(store, SESSION_USER)) && UsableStart(StoredStart(store)))
                              || GetItem(store, SESSION_USER) == Some("")
    ensures r.user.Some? ==> r.user == GetItem(store, SESSION_USER)
    ensures r.countdown.Some? <==> Truthy(GetItem(store, SESSION_USER)) && UsableStart(StoredStart(store))
    ensures r.countdown.Some? ==> r.countdown == StoredStart(store)
  {
    SessionEffect(AppSession(store, GetItem(store, SESSION_USER), SESSION_LIMIT_MS, None), env)
  }

  /**
   One firing of the one-second interval. Once `SESSION_LIMIT_MS` or more has
   elapsed since the start, the interval is cleared and the user is logged
   out with a lockout for today; before that the remaining time is shown.
   */
  function Tick(s: AppSession, env: Env): (r: AppSession)
    ensures s.countdown.None? ==> r == s
    ensures s.countdown.Some? && env.now - s.countdown.value < SESSION_LIMIT_MS ==>
              r == s.(timeLeft := SESSION_LIMIT_MS - (env.now - s.countdown.value))
    ensures s.countdown.Some? && env.now - s.countdown.value >= SESSION_LIMIT_MS ==>
              r.user == None && r.countdown == None
              && SESSION_USER !in r.store && SESSION_START !in r.store
              && GetItem(r.store, LOCKOUT_DATE) == Some(env.today)
              && r.timeLeft == s.timeLeft
              && (forall k | !IsSessionKey(k) :: GetItem(r.store, k) == GetItem(s.store, k))
    ensures r.timeLeft > 0 || r.timeLeft == s.timeLeft
  {
    match s.countdown
    case None => s
    case Some(start) =>
      var remaining := SESSION_LIMIT_MS - (env.now - start);
      if remaining <= 0 then HandleLogout(s.(countdown := None), Some(LOCKOUT), env.today)
      else s.(timeLeft := remaining)
  }

  /** The shell's own invariant: the display never shows a non-positive time,
      and an interval runs only for a signed-in user with a usable start. */
  predicate Consistent(s: AppSession) {
    && s.timeLeft > 0
    && (s.countdown.Some? ==> Truthy(s.user) && s.countdown.value != 0)
  }

  lemma MountConsistent(store: Store, env: Env)
    ensures Consistent(Mount(store, env))
  {
  }

  /** Every step keeps the invariant; a login is only offered while signed out,
      and the login page never passes an empty name. */
  lemma StepsPreserveConsistency(s: AppSession, env: Env, username: string, reason: Option<string>)
    requires Consistent(s)
    ensures Consistent(Tick(s, env))
    ensures Consistent(SessionEffect(s, env))
    ensures Consistent(HandleLogout(s, reason, env.today))
    ensures !Truthy(s.user) && username != "" ==> Consistent(OnLogin(s, username, env))
  {
  }

  /** A login at any moment but the epoch starts an interval measuring from
      that moment; a login stamped 0 reads back as a corrupted session. */
  lemma LoginStartsCountdown(s: AppSession, username: string, env: Env, later: Env)
    requires username != ""
    ensures SessionEffect(OnLogin(s, username, env), later).countdown.Some? <==> env.now > 0
    ensures env.now > 0 ==>
              SessionEffect(OnLogin(s, username, env), later).countdown == Some(env.now as int)
  {
  }

  /** While the interval runs and the clock has not passed the limit, a tick
      keeps the user and shows a time in (0, SESSION_LIMIT_MS]. */
  lemma TickKeepsSessionBeforeLimit(s: AppSession, env: Env)
    requires s.countdown.Some?
    requires s.countdown.value <= env.now < s.countdown.value + SESSION_LIMIT_MS
    ensures var r := Tick(s, env);
            && r.user == s.user && r.store == s.store && r.countdown == s.countdown
            && 0 < r.timeLeft <= SESSION_LIMIT_MS
  {
  }

  /** For a signed-in user the tick logs out exactly when the limit is reached. */
  lemma TickLogsOutExactlyAtLimit(s: AppSession, env: Env)
    requires Consistent(s) && s.countdown.Some?
    ensures Tick(s, env).user.None? <==> env.now >= s.countdown.value + SESSION_LIMIT_MS
    ensures Tick(s, env).user.None? ==> GetItem(Tick(s, env).store, LOCKOUT_DATE) == Some(env.today)
  {
  }

  /** A user whose start is missing, empty or zero is logged out with no
      lockout recorded. */
  lemma CorruptedSessionLogsOut(s: AppSession, env: Env)
    requires Truthy(s.user)
    requires GetItem(s.store, SESSION_START) in {None, Some(""), Some("0")}
    ensures var r := SessionEffect(s, env);
            && r.user == None && r.countdown == None
            && SESSION_USER !in r.store && SESSION_START !in r.store
            && GetItem(r.store, LOCKOUT_DATE) == GetItem(s.store, LOCKOUT_DATE)
  {
  }

  /** Only a login writes the start: ticks and the effect keep it or remove it. */
  lemma SessionStartOnlyWrittenByLogin(s: AppSession, env: Env)
    ensures GetItem(Tick(s, env).store, SESSION_START) in {GetItem(s.store, SESSION_START), None}
    ensures GetItem(SessionEffect(s, env).store, SESSION_START) in {GetItem(s.store, SESSION_START), None}
  {
  }
}
