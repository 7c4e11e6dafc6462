/**
 Properties that span the shell, the login page, the clock and the dashboard:
 a session that runs out locks the login page for the rest of the day, the
 countdown a fresh login shows, and the percentages a phase card shows as
 its milestones are ticked.
 */
module Scenarios {
  import opened Wrappers
  import opened Types
  import opened Roadmap
  import opened Clock
  import opened Session
  import opened LoginPage
  import opened Progress
  import opened View

  /** After the tick that expires a session, the login page mounted the same
      day is locked out and ignores every submission. */
  lemma ExpiryLocksLoginForTheDay(s: AppSession, env: Env, username: string, password: string)
    requires Consistent(s) && s.countdown.Some?
    requires env.now >= s.countdown.value + SESSION_LIMIT_MS
    ensures var r := Tick(s, env);
            var f := SetPassword(SetUsername(MountForm(r.store, env.today), username), password);
            && r.user.None?
            && f.isLockedOut
            && HandleLogin(f).onLogin.None?
  {
    TickLogsOutExactlyAtLimit(s, env);
  }

  /** The lockout is keyed by the day: on any other day the same store lets
      a filled-in form through. */
  lemma ExpiryLockoutEndsWithTheDay(s: AppSession, env: Env, day: string, username: string, password: string)
    requires Consistent(s) && s.countdown.Some?
    requires env.now >= s.countdown.value + SESSION_LIMIT_MS
    requires day != env.today && username != "" && password != ""
    ensures var r := Tick(s, env);
            HandleLogin(SetPassword(SetUsername(MountForm(r.store, day), username), password)).onLogin
            == Some(username)
  {
    TickLogsOutExactlyAtLimit(s, env);
    UnlockedSubmission(Tick(s, env).store, day, username, password);
  }

  /** A manual logout never locks the login page. */
  lemma ManualLogoutLeavesLoginOpen(s: AppSession, today: string)
    requires GetItem(s.store, LOCKOUT_DATE) != Some(today)
    ensures !MountForm(HandleLogout(s, None, today).store, today).isLockedOut
  {
  }

  /** A fresh session shows 04:00:00, one second later 03:59:59. */
  lemma FormatTimeSessionLimit()
    ensures FormatTime(SESSION_LIMIT_MS) == "04:00:00"
    ensures FormatTime(SESSION_LIMIT_MS - 1000) == "03:59:59"
  {
    FormatTimeOfFields(SESSION_LIMIT_MS, 4, 0, 0);
    FormatTimeOfFields(SESSION_LIMIT_MS - 1000, 3, 59, 59);
    RenderedSessionStart();
  }

  /**
   A fresh dashboard with nothing stored, a login at `t0`, then the effect
   and the interval: the display starts at 04:00:00, reads 03:59:59 one
   second in, and the tick four hours after the login signs the user out
   and locks the login page for that day.
   */
  lemma FourHourSession(t0: nat, day: string, username: string)
    requires t0 > 0 && username != ""
    ensures var s0 := Mount(map[], Env(t0, day));
            var s1 := SessionEffect(OnLogin(s0, username, Env(t0, day)), Env(t0, day));
            var s2 := Tick(s1, Env(t0 + 1000, day));
            var s3 := Tick(s2, Env(t0 + SESSION_LIMIT_MS, day));
            && FormatTime(s1.timeLeft) == "04:00:00"
            && s2.user == Some(username) && FormatTime(s2.timeLeft) == "03:59:59"
            && s3.user.None?
            && MountForm(s3.store, day).isLockedOut
  {
    var s0 := Mount(map[], Env(t0, day));
    var s1 := SessionEffect(OnLogin(s0, username, Env(t0, day)), Env(t0, day));
    LoginStartsCountdown(s0, username, Env(t0, day), Env(t0, day));
    assert s1.timeLeft == SESSION_LIMIT_MS;
    var s2 := Tick(s1, Env(t0 + 1000, day));
    assert s2.timeLeft == SESSION_LIMIT_MS - 1000;
    FormatTimeSessionLimit();
  }

  /** Three milestones a, b, c: ticking a, then b, then unticking a reads
      33, 67 and 33 percent. */
  lemma ThreeTicks(ms: seq<Milestone>)
    requires |ms| == 3 && Distinct(MilestoneIds(ms))
    ensures var a, b := ms[0].id, ms[1].id;
            && RoundPercent(CountCompleted(ms, Toggle({}, a)), 3) == 33
            && RoundPercent(CountCompleted(ms, Toggle(Toggle({}, a), b)), 3) == 67
            && RoundPercent(CountCompleted(ms, Toggle(Toggle(Toggle({}, a), b), a)), 3) == 33
  {
    var a, b := ms[0].id, ms[1].id;
    assert MilestoneIds(ms)[0] != MilestoneIds(ms)[1];
    assert MilestoneIds(ms)[0] != MilestoneIds(ms)[2];
    assert MilestoneIds(ms)[1] != MilestoneIds(ms)[2];
    assert Toggle({}, a) == {a};
    assert Toggle({a}, b) == {a, b};
    assert Toggle({a, b}, a) == {b};
    CountThree(ms, {a});
    CountThree(ms, {a, b});
    CountThree(ms, {b});
  }

  lemma CountThree(ms: seq<Milestone>, done: set<string>)
    requires |ms| == 3
    ensures CountCompleted(ms, done)
         == (if ms[0].id in done then 1 else 0)
          + (if ms[1].id in done then 1 else 0)
          + (if ms[2].id in done then 1 else 0)
  {
    var tail := ms[1..];
    assert tail[0] == ms[1] && tail[1..][0] == ms[2] && |tail[1..][1..]| == 0;
    assert CountCompleted(tail[1..][1..], done) == 0;
    assert CountCompleted(tail[1..], done) == (if ms[2].id in done then 1 else 0);
    assert CountCompleted(tail, done)
        == (if ms[1].id in done then 1 else 0) + CountCompleted(tail[1..], done);
  }

  /** On the first phase of the app, the checkbox clicks on m1-1, m1-2 and
      m1-1 again make the card read 33, 67 and 33 percent. */
  lemma FirstPhaseTicks()
    ensures var d1 := ClickMilestone(InitialDashboard(), "m1-1", true);
            var d2 := ClickMilestone(d1, "m1-2", true);
            var d3 := ClickMilestone(d2, "m1-1", true);
            && CalculateProgress(ActivePhase(d1), d1.completed) == Some(33)
            && CalculateProgress(ActivePhase(d2), d2.completed) == Some(67)
            && CalculateProgress(ActivePhase(d3), d3.completed) == Some(33)
  {
    var p := RoadmapData[0];
    FirstPhaseIsActive();
    PhaseMilestoneIdsDistinct(RoadmapData, p) by { ShippedMilestoneIdsDistinct(); }
    ThreeTicks(p.milestones);
  }

  /** The dashboard opens on the first phase, whose milestones are m1-1, m1-2, m1-3. */
  lemma FirstPhaseIsActive()
    ensures ActivePhase(InitialDashboard()) == RoadmapData[0]
    ensures MilestoneIds(RoadmapData[0].milestones) == ["m1-1", "m1-2", "m1-3"]
  {
    RoadmapShape();
    assert PhaseIds(RoadmapData)[0] == 1;
    PhaseMilestoneIdLists();
  }
}
