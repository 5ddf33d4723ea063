/** The session and timer lifecycle of `extensions/pi.ts`: event handlers in which any call to the host,
    the archive or a timer may throw. */
module Lifecycle {
  import opened Wrappers

  datatype StartupState = NotStarted | Starting | Ready | Failed | Stopped

  /** `closes[k]` counts how often the `k`-th archive was released, by itself or by the session that
      wraps it; `live` holds the timers that are running. */
  datatype State = State(
    session: Option<nat>,
    startup: StartupState,
    timer: Option<nat>,
    closes: seq<nat>,
    live: set<nat>,
    nextTimer: nat)

  const INITIAL := State(None, NotStarted, None, [], {}, 0)

  /** How far the set-up of a session gets before it throws, if it does. */
  datatype Setup = BeforeArchive | BeforeSession | BeforeReady | Complete

  datatype Interval = SetThrows | UnrefThrows | Runs

  datatype StartFaults = StartFaults(
    clear: bool,
    setup: Setup,
    previousClose: bool,
    interval: Interval,
    clearAgain: bool,
    reset: bool)

  datatype StopFaults = StopFaults(status: bool, clear: bool, archival: bool, close: bool)

  /** What becomes of the messages of a context event, or of a compaction. */
  datatype Processing = Throws | Processed

  datatype Checkpoint = NotACompaction | CheckpointThrows | NotArchived | Archived

  datatype Event =
    | SessionStart(start: StartFaults)
    | Context(processing: Processing)
    | BeforeCompact(checkpoint: Checkpoint)
    | SessionShutdown(stop: StopFaults)

  datatype Cause = TimerClearing | SetupFailure | PreviousClose | TimerSetting | MonitorReset | StatusLine | Archival | Closing

  datatype Outcome =
    | Done
    | Threw(cause: Cause)
    | PassThrough
    | FailClosed
    | Bounded
    | Cancelled
    | Checkpointed

  // ---------------------------------------------------------------------------------------
  // The handlers on values
  // ---------------------------------------------------------------------------------------

  function Release(s: State, k: Option<nat>): State {
    if k.Some? && k.value < |s.closes| then s.(closes := s.closes[k.value := s.closes[k.value] + 1]) else s
  }

  function StopThrows(s: State, throws: bool): bool {
    s.timer.Some? && throws
  }

  function StopRefresh(s: State, throws: bool): State {
    if s.timer.Some? && !throws then s.(live := s.live - {s.timer.value}, timer := None) else s
  }

  /** Closing the previous session and starting the timer: the state, and why it failed if it did. */
  function Transition(s: State, previous: Option<nat>, f: StartFaults): (State, Option<Cause>) {
    var released := Release(s, previous);
    if previous.Some? && f.previousClose then (released, Some(PreviousClose))
    else if StopThrows(released, f.clearAgain) then (released, Some(TimerClearing))
    else
      var stopped := StopRefresh(released, f.clearAgain);
      if f.interval.SetThrows? then (stopped, Some(TimerSetting))
      else
        (stopped.(timer := Some(stopped.nextTimer), live := stopped.live + {stopped.nextTimer}, nextTimer := stopped.nextTimer + 1),
         if f.interval.UnrefThrows? then Some(TimerSetting) else None)
  }

  /** The last part of a start, with archive and session `next` open. */
  function Enter(s: State, next: nat, previous: Option<nat>, f: StartFaults): (State, Outcome) {
    var (moved, cause) := Transition(s, previous, f);
    if cause.Some? then
      var failed := moved.(startup := Failed);
      if StopThrows(failed, f.clearAgain) then (failed, Threw(TimerClearing))
      else (Release(StopRefresh(failed, f.clearAgain), Some(next)), Threw(cause.value))
    else (moved.(session := Some(next), startup := Ready), if f.reset then Threw(MonitorReset) else Done)
  }

  /** The part of a start after the old timer has been stopped. */
  function SetUp(s: State, previous: Option<nat>, f: StartFaults): (State, Outcome) {
    if f.setup.BeforeArchive? then (Release(s.(startup := Failed), previous), Threw(SetupFailure))
    else
      var next := |s.closes|;
      var larger := s.(closes := s.closes + [0]);
      if !f.setup.Complete? then
        (Release(Release(larger.(startup := Failed), Some(next)), previous), Threw(SetupFailure))
      else Enter(larger, next, previous, f)
  }

  function Start(s: State, f: StartFaults): (State, Outcome) {
    var begun := s.(session := None, startup := Starting);
    if StopThrows(begun, f.clear) then (Release(begun.(startup := Failed), s.session), Threw(TimerClearing))
    else SetUp(StopRefresh(begun, f.clear), s.session, f)
  }

  function PrepareContext(s: State, processing: Processing): Outcome {
    if s.session.None? || !s.startup.Ready? then (if s.startup.NotStarted? then PassThrough else FailClosed)
    else if processing.Throws? then FailClosed
    else Bounded
  }

  function Compact(s: State, checkpoint: Checkpoint): Outcome {
    if s.session.Some? && checkpoint.Archived? then Checkpointed else Cancelled
  }

  /** The first of the failures, each with whether it happened. */
  function FirstFailure(failures: seq<(Cause, bool)>): Outcome {
    if failures == [] then Done
    else if failures[0].1 then Threw(failures[0].0)
    else FirstFailure(failures[1..])
  }

  function Shutdown(s: State, f: StopFaults): (State, Outcome) {
    var ended := StopRefresh(s.(startup := Stopped), f.clear).(session := None);
    (Release(ended, s.session),
     FirstFailure([(StatusLine, f.status)] + ([(TimerClearing, StopThrows(s, f.clear))]
                  + ([(Archival, f.archival)] + [(Closing, s.session.Some? && f.close)]))))
  }

  function Step(s: State, event: Event): (State, Outcome) {
    match event
    case SessionStart(f) => Start(s, f)
    case Context(processing) => (s, PrepareContext(s, processing))
    case BeforeCompact(checkpoint) => (s, Compact(s, checkpoint))
    case SessionShutdown(f) => Shutdown(s, f)
  }

  function Run(events: seq<Event>): State {
    if events == [] then INITIAL
    else Step(Run(events[..|events| - 1]), events[|events| - 1]).0
  }

  // ---------------------------------------------------------------------------------------
  // The handlers as the adapter runs them
  // ---------------------------------------------------------------------------------------

  class Adapter {
    var session: Option<nat>
    var startupState: StartupState
    var protectionRefreshTimer: Option<nat>
    var closes: seq<nat>
    var live: set<nat>
    var nextTimer: nat

    ghost function Contents(): State
      reads this
    {
      State(session, startupState, protectionRefreshTimer, closes, live, nextTimer)
    }

    constructor ()
      ensures Contents() == INITIAL
    {
      session, startupState, protectionRefreshTimer := None, NotStarted, None;
      closes, live, nextTimer := [], {}, 0;
    }

    method Close(closing: Option<nat>, throws: bool) returns (threw: bool)
      modifies this`closes
      ensures Contents() == Release(old(Contents()), closing)
      ensures threw == (closing.Some? && throws)
    {
      if closing.Some? && closing.value < |closes| {
        closes := closes[closing.value := closes[closing.value] + 1];
      }
      threw := closing.Some? && throws;
    }

    method StopProtectionRefresh(clearThrows: bool) returns (threw: bool)
      modifies this
      ensures Contents() == StopRefresh(old(Contents()), clearThrows)
      ensures threw == StopThrows(old(Contents()), clearThrows)
    {
      var timer := protectionRefreshTimer;
      if timer.Some? {
        if clearThrows {
          return true;
        }
        live := live - {timer.value};
      }
      if protectionRefreshTimer == timer {
        protectionRefreshTimer := None;
      }
      threw := false;
    }

    method RestartProtectionRefresh(interval: Interval, clearThrows: bool) returns (cause: Option<Cause>)
      modifies this
      ensures (Contents(), cause) == Transition(old(Contents()), None, StartFaults(false, Complete, false, interval, clearThrows, false))
    {
      var threw := StopProtectionRefresh(clearThrows);
      if threw {
        return Some(TimerClearing);
      }
      if interval.SetThrows? {
        return Some(TimerSetting);
      }
      protectionRefreshTimer := Some(nextTimer);
      live := live + {nextTimer};
      nextTimer := nextTimer + 1;
      cause := if interval.UnrefThrows? then Some(TimerSetting) else None;
    }

    /** `session_start` */
    method OnSessionStart(f: StartFaults) returns (outcome: Outcome)
      modifies this
      ensures (Contents(), outcome) == Start(old(Contents()), f)
    {
      var previousSession := session;
      session := None;
      startupState := Starting;
      var threw := StopProtectionRefresh(f.clear);
      if threw {
        startupState := Failed;
        var _ := Close(previousSession, f.previousClose);
        return Threw(TimerClearing);
      }
      outcome := SetUpSession(previousSession, f);
    }

    method SetUpSession(previousSession: Option<nat>, f: StartFaults) returns (outcome: Outcome)
      modifies this
      ensures (Contents(), outcome) == SetUp(old(Contents()), previousSession, f)
    {
      var archive, nextSession := None, None;
      if !f.setup.BeforeArchive? {
        archive := Some(|closes|);
        closes := closes + [0];
        if !f.setup.BeforeSession? {
          nextSession := archive;
        }
      }
      if !f.setup.Complete? {
        startupState := Failed;
        var _ := Close(if nextSession.Some? then nextSession else archive, true);
        var _ := Close(previousSession, f.previousClose);
        return Threw(SetupFailure);
      }
      outcome := EnterSession(nextSession.value, previousSession, f);
    }

    method EnterSession(nextSession: nat, previousSession: Option<nat>, f: StartFaults) returns (outcome: Outcome)
      modifies this
      ensures (Contents(), outcome) == Enter(old(Contents()), nextSession, previousSession, f)
    {
      var cause: Option<Cause> := None;
      var threw := Close(previousSession, f.previousClose);
      if threw {
        cause := Some(PreviousClose);
      } else {
        cause := RestartProtectionRefresh(f.interval, f.clearAgain);
      }
      if cause.Some? {
        startupState := Failed;
        threw := StopProtectionRefresh(f.clearAgain);
        if threw {
          return Threw(TimerClearing);
        }
        var _ := Close(Some(nextSession), true);
        return Threw(cause.value);
      }
      session := Some(nextSession);
      startupState := Ready;
      outcome := if f.reset then Threw(MonitorReset) else Done;
    }

    /** `context` */
    method OnContext(processing: Processing) returns (outcome: Outcome)
      ensures outcome == PrepareContext(Contents(), processing)
      ensures outcome == PassThrough ==> startupState.NotStarted?
      ensures outcome == Bounded ==> session.Some? && startupState.Ready? && processing.Processed?
    {
      if session.None? || !startupState.Ready? {
        if startupState.NotStarted? {
          return PassThrough;
        }
        return FailClosed;
      }
      outcome := if processing.Throws? then FailClosed else Bounded;
    }

    /** `session_before_compact` */
    method OnBeforeCompact(checkpoint: Checkpoint) returns (outcome: Outcome)
      ensures outcome == Compact(Contents(), checkpoint)
    {
      if session.None? || checkpoint.NotACompaction? {
        return Cancelled;
      }
      outcome := if checkpoint.Archived? then Checkpointed else Cancelled;
    }

    /** `session_shutdown` */
    method OnSessionShutdown(f: StopFaults) returns (outcome: Outcome)
      modifies this
      ensures (Contents(), outcome) == Shutdown(old(Contents()), f)
    {
      startupState := Stopped;
      var cleanupFailure := if f.status then Some(StatusLine) else None;
      var threw := StopProtectionRefresh(f.clear);
      if threw && cleanupFailure.None? {
        cleanupFailure := Some(TimerClearing);
      }
      var closingSession := session;
      session := None;
      ReportsFirst(old(Contents()), f);
      if f.archival && cleanupFailure.None? {
        cleanupFailure := Some(Archival);
      }
      threw := Close(closingSession, f.close);
      if threw && cleanupFailure.None? {
        cleanupFailure := Some(Closing);
      }
      outcome := if cleanupFailure.Some? then Threw(cleanupFailure.value) else Done;
    }
  }

  // ---------------------------------------------------------------------------------------
  // What holds between events
  // ---------------------------------------------------------------------------------------

  /** There is a session and exactly one running timer if and only if the state is ready; every other
      archive has been released exactly once. */
  ghost predicate Consistent(s: State) {
    && !s.startup.Starting?
    && (s.startup.Ready? <==> s.session.Some?)
    && (s.startup.Ready? <==> s.timer.Some?)
    && s.live == (if s.timer.Some? then {s.timer.value} else {})
    && (s.session.Some? ==> s.session.value < |s.closes|)
    && (forall k :: 0 <= k < |s.closes| ==> s.closes[k] == if s.session == Some(k) then 0 else 1)
  }

  /** Clearing a running timer throws. */
  predicate ClearingFails(s: State, event: Event) {
    match event
    case SessionStart(f) =>
      || (s.timer.Some? && f.clear)
      || (f.setup.Complete? && !(s.session.Some? && f.previousClose) && f.interval.UnrefThrows? && f.clearAgain)
    case SessionShutdown(f) => s.timer.Some? && f.clear
    case Context(_) => false
    case BeforeCompact(_) => false
  }

  /** Whatever throws in an event, the state stays consistent if and only if no running timer refuses
      to be cleared. */
  lemma StepConsistent(s: State, event: Event)
    requires Consistent(s)
    ensures Consistent(Step(s, event).0) <==> !ClearingFails(s, event)
  {
    match event
    case SessionStart(f) => StartConsistent(s, f);
    case SessionShutdown(f) => ShutdownConsistent(s, f);
    case Context(_) =>
    case BeforeCompact(_) =>
  }

  /** A state without a session and without a timer, in which every archive but those in `open` has been
      released. */
  ghost predicate Idle(s: State, open: set<nat>) {
    && s.session.None? && s.timer.None? && s.live == {}
    && (forall k :: 0 <= k < |s.closes| ==> s.closes[k] == if k in open then 0 else 1)
    && (forall k :: k in open ==> k < |s.closes|)
  }

  lemma ReleaseIdle(s: State, open: set<nat>, k: Option<nat>)
    requires Idle(s, open) && (k.Some? ==> k.value in open)
    ensures Idle(Release(s, k), if k.Some? then open - {k.value} else open)
    ensures Release(s, k).startup == s.startup && |Release(s, k).closes| == |s.closes|
  {
  }

  function Held(session: Option<nat>): set<nat> {
    if session.Some? then {session.value} else {}
  }

  lemma StoppedIdle(s: State, clear: bool, startup: StartupState)
    requires Consistent(s) && !(s.timer.Some? && clear)
    ensures Idle(StopRefresh(s.(session := None, startup := startup), clear), Held(s.session))
  {
  }

  lemma StartConsistent(s: State, f: StartFaults)
    requires Consistent(s)
    ensures Consistent(Start(s, f).0) <==> !ClearingFails(s, SessionStart(f))
  {
    if !(s.timer.Some? && f.clear) {
      StoppedIdle(s, f.clear, Starting);
      SetUpConsistent(StopRefresh(s.(session := None, startup := Starting), f.clear), s.session, f);
    }
  }

  lemma SetUpConsistent(s: State, previous: Option<nat>, f: StartFaults)
    requires Idle(s, Held(previous))
    ensures Consistent(SetUp(s, previous, f).0) <==>
              !(f.setup.Complete? && !(previous.Some? && f.previousClose) && f.interval.UnrefThrows? && f.clearAgain)
  {
    if f.setup.BeforeArchive? {
      ReleaseIdle(s.(startup := Failed), Held(previous), previous);
    } else {
      var next := |s.closes|;
      var larger := s.(closes := s.closes + [0]);
      if f.setup.Complete? {
        ReleaseIdle(larger, Held(previous) + {next}, previous);
        EnterConsistent(larger, next, previous, f);
      } else {
        ReleaseIdle(larger.(startup := Failed), Held(previous) + {next}, Some(next));
        ReleaseIdle(Release(larger.(startup := Failed), Some(next)), Held(previous), previous);
      }
    }
  }

  lemma EnterConsistent(s: State, next: nat, previous: Option<nat>, f: StartFaults)
    requires Idle(Release(s, previous), {next}) && s.timer.None? && |s.closes| == next + 1
    ensures Consistent(Enter(s, next, previous, f).0) <==>
              !(!(previous.Some? && f.previousClose) && f.interval.UnrefThrows? && f.clearAgain)
  {
    RunningConsistent(Release(s, previous), next);
  }

  /** The ways a start can end, once the previous session has been released. */
  lemma RunningConsistent(s: State, next: nat)
    requires Idle(s, {next}) && |s.closes| == next + 1
    ensures Consistent(Release(s.(startup := Failed), Some(next)))
    ensures var running := s.(timer := Some(s.nextTimer), live := s.live + {s.nextTimer}, nextTimer := s.nextTimer + 1);
            && Consistent(running.(session := Some(next), startup := Ready))
            && Consistent(Release(StopRefresh(running.(startup := Failed), false), Some(next)))
            && !Consistent(running.(startup := Failed))
  {
    ReleaseIdle(s.(startup := Failed), {next}, Some(next));
    var running := s.(timer := Some(s.nextTimer), live := s.live + {s.nextTimer}, nextTimer := s.nextTimer + 1);
    ReleaseIdle(StopRefresh(running.(startup := Failed), false), {next}, Some(next));
  }

  lemma ShutdownConsistent(s: State, f: StopFaults)
    requires Consistent(s)
    ensures Consistent(Shutdown(s, f).0) <==> !ClearingFails(s, SessionShutdown(f))
  {
    if !(s.timer.Some? && f.clear) {
      StoppedIdle(s, f.clear, Stopped);
      ReleaseIdle(StopRefresh(s.(startup := Stopped), f.clear).(session := None), Held(s.session), s.session);
    }
  }

  /** No timer refuses to be cleared in the whole run. */
  ghost predicate TimersClear(events: seq<Event>) {
    forall i :: 0 <= i < |events| ==> !ClearingFails(Run(events[..i]), events[i])
  }

  /** Over every run, with exceptions wherever they may occur but in clearing a timer. */
  lemma {:induction false} RunConsistent(events: seq<Event>)
    requires TimersClear(events)
    ensures Consistent(Run(events))
  {
    if events != [] {
      var init := events[..|events| - 1];
      forall i | 0 <= i < |init|
        ensures !ClearingFails(Run(init[..i]), init[i])
      {
        assert events[..i] == init[..i];
      }
      RunConsistent(init);
      StepConsistent(Run(init), events[|events| - 1]);
    }
  }

  /** Nothing is lost and nothing is released twice, even when clearing a timer throws. */
  ghost predicate Guarded(s: State) {
    && !s.startup.Starting?
    && (s.startup.Ready? <==> s.session.Some?)
    && (s.session.Some? ==> s.session.value < |s.closes| && s.closes[s.session.value] == 0)
    && (forall k :: 0 <= k < |s.closes| ==> s.closes[k] <= 1)
  }

  /** No archive is released twice, and those in `open` not at all. */
  ghost predicate AtMostOnce(closes: seq<nat>, open: set<nat>) {
    && (forall k :: 0 <= k < |closes| ==> closes[k] <= if k in open then 0 else 1)
    && (forall k :: k in open ==> k < |closes|)
  }

  lemma ReleaseOnce(s: State, open: set<nat>, k: Option<nat>)
    requires AtMostOnce(s.closes, open) && (k.Some? ==> k.value in open)
    ensures AtMostOnce(Release(s, k).closes, if k.Some? then open - {k.value} else open)
  {
  }

  lemma TransitionReleases(s: State, previous: Option<nat>, f: StartFaults)
    ensures Transition(s, previous, f).0.closes == Release(s, previous).closes
    ensures Transition(s, previous, f).0.session == s.session
  {
  }

  lemma EnterGuarded(s: State, next: nat, previous: Option<nat>, f: StartFaults)
    requires s.session.None? && AtMostOnce(s.closes, Held(previous) + {next})
    requires previous != Some(next)
    ensures Guarded(Enter(s, next, previous, f).0)
  {
    ReleaseOnce(s, Held(previous) + {next}, previous);
    TransitionReleases(s, previous, f);
    var failed := Transition(s, previous, f).0.(startup := Failed);
    assert AtMostOnce(failed.closes, {next});
    ReleaseOnce(StopRefresh(failed, f.clearAgain), {next}, Some(next));
  }

  lemma SetUpGuarded(s: State, previous: Option<nat>, f: StartFaults)
    requires s.session.None? && AtMostOnce(s.closes, Held(previous))
    ensures Guarded(SetUp(s, previous, f).0)
  {
    var next := |s.closes|;
    var larger := s.(closes := s.closes + [0]);
    ReleaseOnce(s.(startup := Failed), Held(previous), previous);
    ReleaseOnce(larger.(startup := Failed), Held(previous) + {next}, Some(next));
    ReleaseOnce(Release(larger.(startup := Failed), Some(next)), Held(previous), previous);
    EnterGuarded(larger, next, previous, f);
  }

  lemma StepGuarded(s: State, event: Event)
    requires Guarded(s)
    ensures Guarded(Step(s, event).0)
  {
    match event
    case SessionStart(f) =>
      var begun := s.(session := None, startup := Starting);
      ReleaseOnce(begun.(startup := Failed), Held(s.session), s.session);
      SetUpGuarded(StopRefresh(begun, f.clear), s.session, f);
    case SessionShutdown(f) =>
      ReleaseOnce(StopRefresh(s.(startup := Stopped), f.clear).(session := None), Held(s.session), s.session);
    case Context(_) =>
    case BeforeCompact(_) =>
  }

  predicate Attempts(event: Event) {
    event.SessionStart? || event.SessionShutdown?
  }

  lemma {:induction false} RunGuarded(events: seq<Event>)
    ensures Guarded(Run(events))
  {
    if events != [] {
      RunGuarded(events[..|events| - 1]);
      StepGuarded(Run(events[..|events| - 1]), events[|events| - 1]);
    }
  }

  ghost predicate NothingAttempted(events: seq<Event>) {
    forall i :: 0 <= i < |events| ==> !Attempts(events[i])
  }

  lemma StepAttempts(s: State, event: Event)
    ensures Step(s, event).0.startup.NotStarted? <==> s.startup.NotStarted? && !Attempts(event)
  {
  }

  lemma AttemptedLast(events: seq<Event>)
    requires events != []
    ensures NothingAttempted(events) <==> NothingAttempted(events[..|events| - 1]) && !Attempts(events[|events| - 1])
  {
    var init := events[..|events| - 1];
    assert forall i :: 0 <= i < |init| ==> init[i] == events[i];
  }

  lemma {:induction false} RunAttempts(events: seq<Event>)
    ensures Run(events).startup.NotStarted? <==> NothingAttempted(events)
  {
    if events != [] {
      var init := events[..|events| - 1];
      RunAttempts(init);
      StepAttempts(Run(init), events[|events| - 1]);
      AttemptedLast(events);
    }
  }

  /** Raw messages get through if and only if no session was ever started or shut down; bounded ones if
      and only if there is a session that processes them; anything else is refused. */
  lemma ContextFailsClosed(events: seq<Event>, processing: Processing)
    ensures var outcome := Step(Run(events), Context(processing)).1;
            && (outcome == PassThrough <==> NothingAttempted(events))
            && (outcome == Bounded <==> Run(events).startup.Ready? && processing.Processed?)
            && (outcome == PassThrough || outcome == Bounded || outcome == FailClosed)
  {
    RunAttempts(events);
    RunGuarded(events);
  }

  /** Raw context is never left to the host's own summarizer. */
  lemma CompactionFailsClosed(events: seq<Event>, checkpoint: Checkpoint)
    ensures Step(Run(events), BeforeCompact(checkpoint)).1
         == if Run(events).startup.Ready? && checkpoint.Archived? then Checkpointed else Cancelled
  {
    RunGuarded(events);
  }

  /** The outcome says whether the state is ready, and it is ready or failed. */
  ghost predicate Tells(after: State, outcome: Outcome, ready: bool) {
    && (after.startup.Ready? <==> ready)
    && (ready <==> outcome == Done || outcome == Threw(MonitorReset))
    && (after.startup.Ready? || after.startup.Failed?)
  }

  lemma TransitionOutcome(s: State, previous: Option<nat>, f: StartFaults)
    requires s.timer.None?
    ensures var (moved, cause) := Transition(s, previous, f);
            && (cause.None? <==> f.interval.Runs? && !(previous.Some? && f.previousClose))
            && cause != Some(MonitorReset) && moved.startup == s.startup
            && (moved.timer.Some? <==> !(previous.Some? && f.previousClose) && !f.interval.SetThrows?)
  {
  }

  lemma EnterOutcome(s: State, next: nat, previous: Option<nat>, f: StartFaults)
    requires s.timer.None?
    ensures var (after, outcome) := Enter(s, next, previous, f);
            Tells(after, outcome, f.interval.Runs? && !(previous.Some? && f.previousClose))
  {
    TransitionOutcome(s, previous, f);
  }

  lemma StartOutcome(s: State, f: StartFaults)
    requires Consistent(s) && !ClearingFails(s, SessionStart(f))
    ensures var (after, outcome) := Start(s, f);
            Tells(after, outcome, f.setup.Complete? && f.interval.Runs? && !(s.session.Some? && f.previousClose))
  {
    var stopped := StopRefresh(s.(session := None, startup := Starting), f.clear);
    EnterOutcome(stopped.(closes := stopped.closes + [0]), |stopped.closes|, s.session, f);
  }

  lemma NoSessionNoneOpen(s: State)
    requires Consistent(s) && !s.startup.Ready?
    ensures s.live == {} && forall k :: 0 <= k < |s.closes| ==> s.closes[k] == 1
  {
  }

  /** The first thing that goes wrong in a start whose timers clear. */
  lemma StartCause(s: State, f: StartFaults)
    requires Consistent(s) && !ClearingFails(s, SessionStart(f))
    ensures Start(s, f).1
         == if !f.setup.Complete? then Threw(SetupFailure)
            else if s.session.Some? && f.previousClose then Threw(PreviousClose)
            else if !f.interval.Runs? then Threw(TimerSetting)
            else if f.reset then Threw(MonitorReset)
            else Done
  {
  }

  /** A start that ends ready has opened the newest archive, and its timer runs. */
  lemma NewSession(s: State, f: StartFaults)
    requires Consistent(s) && !ClearingFails(s, SessionStart(f))
    ensures var after := Start(s, f).0;
            after.startup.Ready? ==>
              after.session == Some(|s.closes|) && after.timer.Some? && after.live == {after.timer.value}
  {
    StartConsistent(s, f);
  }

  /** A start ends ready if and only if the set-up is complete, the previous session closed without
      complaint and the timer runs; its outcome says so, or what went wrong first. Otherwise the previous
      session and the new one are gone. */
  lemma StartReports(events: seq<Event>, f: StartFaults)
    requires TimersClear(events) && !ClearingFails(Run(events), SessionStart(f))
    ensures var (after, outcome) := Start(Run(events), f);
            && Tells(after, outcome, f.setup.Complete? && f.interval.Runs? && !(Run(events).session.Some? && f.previousClose))
            && outcome == (if !f.setup.Complete? then Threw(SetupFailure)
                           else if Run(events).session.Some? && f.previousClose then Threw(PreviousClose)
                           else if !f.interval.Runs? then Threw(TimerSetting)
                           else if f.reset then Threw(MonitorReset)
                           else Done)
            && (after.startup.Ready? ==>
                  after.session == Some(|Run(events).closes|) && after.timer.Some? && after.live == {after.timer.value})
            && (!after.startup.Ready? ==>
                  after.startup.Failed? && after.live == {} && forall k :: 0 <= k < |after.closes| ==> after.closes[k] == 1)
  {
    RunConsistent(events);
    StartConsistent(Run(events), f);
    StartOutcome(Run(events), f);
    StartCause(Run(events), f);
    NewSession(Run(events), f);
    if !Start(Run(events), f).0.startup.Ready? {
      NoSessionNoneOpen(Start(Run(events), f).0);
    }
  }

  /** A shutdown goes through all of its steps whatever throws, and reports the first failure. */
  lemma ShutdownReleases(events: seq<Event>, f: StopFaults)
    requires TimersClear(events)
    requires !ClearingFails(Run(events), SessionShutdown(f))
    ensures var (after, outcome) := Shutdown(Run(events), f);
            && after.startup.Stopped? && after.live == {}
            && (forall k :: 0 <= k < |after.closes| ==> after.closes[k] == 1)
            && (outcome == Done <==> !f.status && !f.archival && !(Run(events).session.Some? && f.close))
  {
    RunConsistent(events);
    ShutdownConsistent(Run(events), f);
    ReportsFirst(Run(events), f);
  }

  lemma ReportsFirst(s: State, f: StopFaults)
    ensures Shutdown(s, f).1
         == if f.status then Threw(StatusLine)
            else if StopThrows(s, f.clear) then Threw(TimerClearing)
            else if f.archival then Threw(Archival)
            else if s.session.Some? && f.close then Threw(Closing)
            else Done
  {
    var closing := [(Closing, s.session.Some? && f.close)];
    var archival := [(Archival, f.archival)] + closing;
    var clearing := [(TimerClearing, StopThrows(s, f.clear))] + archival;
    FirstOf((Closing, s.session.Some? && f.close), []);
    assert closing + [] == closing;
    FirstOf((Archival, f.archival), closing);
    FirstOf((TimerClearing, StopThrows(s, f.clear)), archival);
    FirstOf((StatusLine, f.status), clearing);
  }

  lemma FirstOf(failure: (Cause, bool), later: seq<(Cause, bool)>)
    ensures FirstFailure([failure] + later) == if failure.1 then Threw(failure.0) else FirstFailure(later)
  {
    assert ([failure] + later)[1..] == later;
  }

  /** The concrete leak: a timer that neither detaches nor clears leaves its session open for good. */
  lemma TimerLeaks() returns (events: seq<Event>)
    ensures events == [SessionStart(StartFaults(false, Complete, false, UnrefThrows, true, false))]
    ensures var s := Run(events); s.startup.Failed? && s.session.None? && s.closes == [0] && s.live == {0}
  {
    var f := StartFaults(false, Complete, false, UnrefThrows, true, false);
    events := [SessionStart(f)];
    assert Run(events) == Step(Run(events[..0]), events[0]).0;
    var larger := INITIAL.(startup := Starting, closes := [0]);
    assert Run(events) == Enter(larger, 0, None, f).0;
    assert Transition(larger, None, f).0 == larger.(timer := Some(0), live := {0}, nextTimer := 1);
  }
}
