/**
 The monitoring of deposits: the loop of one monitor, and all monitors of a client at once, each
 holding the lock of its deposit and monitoring name.
 */
module Monitoring {

  const MAX_ACT_ATTEMPTS := 3

  // ---- The loop of one monitor ----

  /** What the select of the loop takes next; an elapsed timer is followed by the action. */
  datatype Signal = ContextDone | StopEvent | KeepClosed | Elapsed(acted: bool)

  /** How a loop stands after its signals: how often it has acted, and whether it still waits for more. */
  datatype Course = Course(actions: nat, waiting: bool)

  /** The failed actions before anything else. */
  function LeadingFailures(signals: seq<Signal>): (n: nat)
    ensures n <= |signals|
  {
    if signals == [] || signals[0] != Elapsed(false) then 0 else 1 + LeadingFailures(signals[1..])
  }

  /**
   The monitor gives up after three failed actions. Before, it ends with a successful action, or with
   the first stop, closed or context signal, and does nothing more.
   */
  function CourseOf(signals: seq<Signal>): (r: Course)
    ensures r.actions <= MAX_ACT_ATTEMPTS
  {
    var failures := LeadingFailures(signals);
    if failures >= MAX_ACT_ATTEMPTS then Course(MAX_ACT_ATTEMPTS, false)
    else if failures == |signals| then Course(failures, true)
    else Course(if signals[failures] == Elapsed(true) then failures + 1 else failures, false)
  }

  /** This signal is an elapsed timer whose action is performed: it follows at most two failures and nothing else. */
  predicate ActsAt(signals: seq<Signal>, i: nat) {
    i < |signals| && i < 3 && signals[i].Elapsed? && forall j :: 0 <= j < i ==> signals[j] == Elapsed(false)
  }

  /** The loop acts on just these signals, and waits on exactly while at most two failed and nothing else came. */
  lemma CourseExactly(signals: seq<Signal>)
    ensures forall i: nat :: ActsAt(signals, i) <==> i < CourseOf(signals).actions
    ensures CourseOf(signals).waiting <==>
              |signals| < 3 && forall j :: 0 <= j < |signals| ==> signals[j] == Elapsed(false)
  {
    LeadingFailuresFail(signals);
  }

  lemma {:induction false} LeadingFailuresFail(signals: seq<Signal>)
    ensures var n := LeadingFailures(signals);
            && (forall j :: 0 <= j < n ==> signals[j] == Elapsed(false))
            && (n < |signals| ==> signals[n] != Elapsed(false))
  {
    if signals != [] && signals[0] == Elapsed(false) {
      LeadingFailuresFail(signals[1..]);
      assert forall j :: 0 < j < |signals| ==> signals[j] == signals[1..][j - 1];
    }
  }

  lemma {:induction false} LeadingFailuresFrom(signals: seq<Signal>, i: nat)
    requires i <= LeadingFailures(signals)
    ensures LeadingFailures(signals) == i + LeadingFailures(signals[i..])
  {
    if i > 0 {
      LeadingFailuresFrom(signals[1..], i - 1);
      assert signals[1..][i - 1..] == signals[i..];
    }
  }

  /** A monitor's lock is this string in the map of locks. */
  function LockKey(depositAddress: string, monitoringName: string): string {
    depositAddress + "-" + WithoutSpaces(monitoringName)
  }

  function WithoutSpaces(s: string): string {
    if s == [] then []
    else (if s[0] == ' ' then [] else [s[0]]) + WithoutSpaces(s[1..])
  }

  /** What decides whether a start event gets as far as the loop. */
  datatype Setup = Setup(shouldMonitor: bool, keepClosedWatched: bool, timeoutKnown: bool)

  class Tbtc {
    var monitoringLocks: set<string>

    constructor ()
      ensures monitoringLocks == {}
    {
      monitoringLocks := {};
    }

    method AcquireMonitoringLock(depositAddress: string, monitoringName: string) returns (acquired: bool)
      modifies this
      ensures acquired <==> LockKey(depositAddress, monitoringName) !in old(monitoringLocks)
      ensures monitoringLocks == old(monitoringLocks) + {LockKey(depositAddress, monitoringName)}
    {
      var key := LockKey(depositAddress, monitoringName);
      acquired := key !in monitoringLocks;
      monitoringLocks := monitoringLocks + {key};
    }

    method ReleaseMonitoringLock(depositAddress: string, monitoringName: string)
      modifies this
      ensures monitoringLocks == old(monitoringLocks) - {LockKey(depositAddress, monitoringName)}
    {
      monitoringLocks := monitoringLocks - {LockKey(depositAddress, monitoringName)};
    }

    /** A start event, handled as far as the given signals go. The lock is held exactly while the loop waits. */
    method HandleStartEvent(depositAddress: string, monitoringName: string, setup: Setup, signals: seq<Signal>)
      returns (course: Course)
      modifies this
      ensures var key := LockKey(depositAddress, monitoringName);
              var starts := setup == Setup(true, true, true) && key !in old(monitoringLocks);
              && course == (if starts then CourseOf(signals) else Course(0, false))
              && monitoringLocks == old(monitoringLocks) + (if course.waiting then {key} else {})
    {
      if !setup.shouldMonitor {
        return Course(0, false);
      }
      var acquired := AcquireMonitoringLock(depositAddress, monitoringName);
      if !acquired {
        return Course(0, false);
      }
      if !setup.keepClosedWatched || !setup.timeoutKnown {
        ReleaseMonitoringLock(depositAddress, monitoringName);
        return Course(0, false);
      }
      var actionAttempt, actions, i := 1, 0, 0;
      var monitoring := true;
      while monitoring && i < |signals|
        invariant 0 <= i <= |signals|
        invariant monitoringLocks == old(monitoringLocks) + {LockKey(depositAddress, monitoringName)}
        invariant monitoring ==> i == actions == actionAttempt - 1 && i < MAX_ACT_ATTEMPTS && i <= LeadingFailures(signals)
        invariant !monitoring ==> Course(actions, false) == CourseOf(signals)
      {
        LeadingFailuresFrom(signals, i);
        var signal := signals[i];
        i := i + 1;
        match signal {
          case ContextDone => monitoring := false;
          case StopEvent => monitoring := false;
          case KeepClosed => monitoring := false;
          case Elapsed(acted) =>
            actions := actions + 1;
            if !acted {
              if actionAttempt == MAX_ACT_ATTEMPTS {
                monitoring := false;
              } else {
                actionAttempt := actionAttempt + 1;
              }
            } else {
              monitoring := false;
            }
        }
      }
      if !monitoring {
        ReleaseMonitoringLock(depositAddress, monitoringName);
      }
      return Course(actions, monitoring);
    }
  }

  // ---- Lock keys ----

  lemma {:induction false} WithoutSpacesHasNoDash(s: string)
    ensures '-' in WithoutSpaces(s) <==> '-' in s
  {
    if s != [] {
      WithoutSpacesHasNoDash(s[1..]);
      assert s == [s[0]] + s[1..];
    }
  }

  /** One deposit address is the other with a dash and `x` after it, and the name starts with them instead. */
  ghost predicate Shifted(a: string, b: string, m: string, n: string) {
    exists x: string :: a == b + "-" + x && n == x + "-" + m
  }

  lemma ShiftedSplit(a: string, b: string, m: string, n: string)
    requires a + "-" + m == b + "-" + n && |a| > |b|
    ensures Shifted(a, b, m, n)
  {
    var s := a + "-" + m;
    var x := a[|b| + 1..];
    assert a[..|b|] == s[..|b|] == b && a[|b|] == s[|b|] == '-';
    assert a == b + "-" + x;
    assert n == s[|b| + 1..] == x + "-" + m;
  }

  /**
   Exactly when two monitors share a lock: they have one deposit and one name, spaces aside, or a dash
   can be read as the separator in two places.
   */
  lemma LockKeysExactly(a: string, b: string, m: string, n: string)
    ensures LockKey(a, m) == LockKey(b, n)
       <==> || (a == b && WithoutSpaces(m) == WithoutSpaces(n))
            || Shifted(a, b, WithoutSpaces(m), WithoutSpaces(n))
            || Shifted(b, a, WithoutSpaces(n), WithoutSpaces(m))
  {
    var p, q := WithoutSpaces(m), WithoutSpaces(n);
    if a + "-" + p == b + "-" + q {
      if |a| > |b| {
        ShiftedSplit(a, b, p, q);
      } else if |b| > |a| {
        ShiftedSplit(b, a, q, p);
      } else {
        assert a == (a + "-" + p)[..|a|] && p == (a + "-" + p)[|a| + 1..];
        assert b == (b + "-" + q)[..|b|] && q == (b + "-" + q)[|b| + 1..];
      }
    }
    if x :| a == b + "-" + x && q == x + "-" + p {
      assert a + "-" + p == b + "-" + (x + "-" + p);
    }
    if x :| b == a + "-" + x && p == x + "-" + q {
      assert b + "-" + q == a + "-" + (x + "-" + q);
    }
  }

  lemma DashesCollide()
    ensures LockKey("a", "b-c") == LockKey("a-b", "c")
  {
  }

  /** For names without a dash, like all names of the client, that leaves one deposit and one name. */
  lemma LockKeysDiffer(a: string, b: string, m: string, n: string)
    requires '-' !in m && '-' !in n
    ensures LockKey(a, m) == LockKey(b, n) <==> a == b && WithoutSpaces(m) == WithoutSpaces(n)
  {
    WithoutSpacesHasNoDash(m);
    WithoutSpacesHasNoDash(n);
    LockKeysExactly(a, b, m, n);
  }

  // ---- All monitors at once ----

  datatype Phase = Starting | Locked | Watching | Monitoring | Acting | Leaving | Gone

  datatype Monitor = Monitor(deposit: string, name: string, phase: Phase, attempt: nat, actions: nat)

  datatype State = State(locks: set<string>, monitors: map<nat, Monitor>)

  datatype Step =
    | StartEvent(m: nat, deposit: string, name: string, shouldMonitor: bool)
    | Acquire(m: nat)
    | WatchKeep(m: nat, watched: bool)
    | SetTimeout(m: nat, known: bool)
    | Take(m: nat, signal: Signal)
    | Act(m: nat, acted: bool)
    | Release(m: nat)

  predicate Enabled(s: State, step: Step) {
    if step.StartEvent? then step.m !in s.monitors
    else
      step.m in s.monitors
      && match step
         case Acquire(m) => s.monitors[m].phase == Starting
         case WatchKeep(m, _) => s.monitors[m].phase == Locked
         case SetTimeout(m, _) => s.monitors[m].phase == Watching
         case Take(m, _) => s.monitors[m].phase == Monitoring
         case Act(m, _) => s.monitors[m].phase == Acting
         case Release(m) => s.monitors[m].phase == Leaving
  }

  function Key(monitor: Monitor): string { LockKey(monitor.deposit, monitor.name) }

  function Apply(s: State, step: Step): State
    requires Enabled(s, step)
  {
    match step
    case StartEvent(m, deposit, name, shouldMonitor) =>
      s.(monitors := s.monitors[m := Monitor(deposit, name, if shouldMonitor then Starting else Gone, 1, 0)])
    case Acquire(m) =>
      Move(s, m, if Key(s.monitors[m]) in s.locks then Gone else Locked).(locks := s.locks + {Key(s.monitors[m])})
    case WatchKeep(m, watched) => Move(s, m, if watched then Watching else Leaving)
    case SetTimeout(m, known) => Move(s, m, if known then Monitoring else Leaving)
    case Take(m, signal) => Move(s, m, if signal.Elapsed? then Acting else Leaving)
    case Act(m, acted) =>
      var monitor := s.monitors[m];
      var again := !acted && monitor.attempt != MAX_ACT_ATTEMPTS;
      s.(monitors := s.monitors[m := monitor.(
           phase := if again then Monitoring else Leaving,
           attempt := if again then monitor.attempt + 1 else monitor.attempt,
           actions := monitor.actions + 1)])
    case Release(m) => Move(s, m, Gone).(locks := s.locks - {Key(s.monitors[m])})
  }

  function Move(s: State, m: nat, phase: Phase): State
    requires m in s.monitors
  {
    s.(monitors := s.monitors[m := s.monitors[m].(phase := phase)])
  }

  ghost predicate IsRun(run: seq<State>, steps: seq<Step>) {
    && |run| == |steps| + 1
    && run[0] == State({}, map[])
    && forall i :: 0 <= i < |steps| ==> Enabled(run[i], steps[i]) && run[i + 1] == Apply(run[i], steps[i])
  }

  predicate Runs(monitor: Monitor) { monitor.phase in {Locked, Watching, Monitoring, Acting, Leaving} }

  predicate Holds(s: State, m: nat, key: string) {
    m in s.monitors && Runs(s.monitors[m]) && Key(s.monitors[m]) == key
  }

  ghost predicate Held(s: State, key: string) { exists m :: Holds(s, m, key) }

  ghost predicate Exclusion(s: State) {
    && (forall key :: key in s.locks <==> Held(s, key))
    && (forall m, n, key :: Holds(s, m, key) && Holds(s, n, key) ==> m == n)
  }

  predicate Bounded(monitor: Monitor) {
    && 1 <= monitor.attempt <= MAX_ACT_ATTEMPTS
    && monitor.actions <= (if monitor.phase in {Leaving, Gone} then monitor.attempt else monitor.attempt - 1)
  }

  lemma SameHolds(s: State, s': State)
    requires Exclusion(s) && s'.locks == s.locks
    requires forall m, key :: Holds(s', m, key) <==> Holds(s, m, key)
    ensures Exclusion(s')
  {
    forall key ensures Held(s', key) <==> Held(s, key) {
      if Held(s, key) {
        var m :| Holds(s, m, key);
        assert Holds(s', m, key);
      }
      if Held(s', key) {
        var m :| Holds(s', m, key);
        assert Holds(s, m, key);
      }
    }
  }

  lemma AcquireKeepsExclusion(s: State, step: Step)
    requires step.Acquire? && Enabled(s, step) && Exclusion(s)
    ensures Exclusion(Apply(s, step))
  {
    var s', m, key := Apply(s, step), step.m, Key(s.monitors[step.m]);
    assert forall n, k :: n != m ==> (Holds(s', n, k) <==> Holds(s, n, k));
    assert forall k :: !Holds(s, m, k);
    if key in s.locks {
      assert s'.locks == s.locks;
      SameHolds(s, s');
    } else {
      assert Holds(s', m, key);
      forall k ensures k in s'.locks <==> Held(s', k) {
        if k in s.locks {
          var n :| Holds(s, n, k);
          assert Holds(s', n, k);
        }
      }
      assert forall n :: !Holds(s, n, key);
    }
  }

  lemma ReleaseKeepsExclusion(s: State, step: Step)
    requires step.Release? && Enabled(s, step) && Exclusion(s)
    ensures Exclusion(Apply(s, step))
  {
    var s', m, key := Apply(s, step), step.m, Key(s.monitors[step.m]);
    assert forall n, k :: n != m ==> (Holds(s', n, k) <==> Holds(s, n, k));
    assert forall k :: !Holds(s', m, k);
    assert Holds(s, m, key);
    forall k ensures k in s'.locks <==> Held(s', k) {
      if k in s'.locks {
        var n :| Holds(s, n, k);
        assert Holds(s', n, k);
      }
    }
  }

  lemma StepKeepsExclusion(s: State, step: Step)
    requires Enabled(s, step) && Exclusion(s)
    ensures Exclusion(Apply(s, step))
  {
    if step.Acquire? {
      AcquireKeepsExclusion(s, step);
    } else if step.Release? {
      ReleaseKeepsExclusion(s, step);
    } else {
      var s' := Apply(s, step);
      assert s'.locks == s.locks;
      SameHolds(s, s');
    }
  }

  lemma {:induction false} RunInvariant(run: seq<State>, steps: seq<Step>, i: nat)
    requires IsRun(run, steps) && i < |run|
    ensures Exclusion(run[i])
    ensures forall m :: m in run[i].monitors ==> Bounded(run[i].monitors[m])
  {
    if i > 0 {
      RunInvariant(run, steps, i - 1);
      StepKeepsExclusion(run[i - 1], steps[i - 1]);
    }
  }

  /**
   In every interleaving: at most one monitor runs per deposit and monitoring name, a lock is taken
   exactly while its monitor runs, so it is free after every exit, and no monitor acts more than three
   times.
   */
  lemma MonitorsExclude(run: seq<State>, steps: seq<Step>, i: nat, m: nat, n: nat)
    requires IsRun(run, steps) && i < |run| && m in run[i].monitors && n in run[i].monitors
    ensures var s := run[i];
            && (Runs(s.monitors[m]) && Runs(s.monitors[n]) && Key(s.monitors[m]) == Key(s.monitors[n]) ==> m == n)
            && (Key(s.monitors[m]) in s.locks <==> Held(s, Key(s.monitors[m])))
            && s.monitors[m].actions <= MAX_ACT_ATTEMPTS
  {
    RunInvariant(run, steps, i);
    var s := run[i];
    assert Runs(s.monitors[m]) ==> Holds(s, m, Key(s.monitors[m]));
    assert Runs(s.monitors[n]) ==> Holds(s, n, Key(s.monitors[n]));
  }

  /** A monitor that has taken a stop, closed or context signal, or has left for any other reason, never acts again. */
  lemma {:induction false} NoActionAfterTheEnd(run: seq<State>, steps: seq<Step>, i: nat, j: nat, m: nat)
    requires IsRun(run, steps) && i <= j < |run|
    requires m in run[i].monitors && run[i].monitors[m].phase in {Leaving, Gone}
    ensures m in run[j].monitors && run[j].monitors[m].phase in {Leaving, Gone}
    ensures run[j].monitors[m].actions == run[i].monitors[m].actions
  {
    if i < j {
      NoActionAfterTheEnd(run, steps, i, j - 1, m);
      assert Enabled(run[j - 1], steps[j - 1]);
    }
  }

  // ---- Every monitor follows its own loop ----

  /** The signals a monitor has taken in a run, an action standing for the timer before it. */
  function Taken(steps: seq<Step>, m: nat): seq<Signal> {
    if steps == [] then []
    else
      var last := steps[|steps| - 1];
      Taken(steps[..|steps| - 1], m) + (if last.m == m then TakenIn(last) else [])
  }

  function TakenIn(step: Step): seq<Signal> {
    if step.Take? && !step.signal.Elapsed? then [step.signal]
    else if step.Act? then [Elapsed(step.acted)]
    else []
  }

  predicate AllFailed(signals: seq<Signal>) {
    forall i :: 0 <= i < |signals| ==> signals[i] == Elapsed(false)
  }

  /** What a monitor has done is what its loop does with the signals it has taken. */
  predicate Follows(monitor: Monitor, taken: seq<Signal>) {
    match monitor.phase
    case Starting => taken == [] && monitor.actions == 0 && monitor.attempt == 1
    case Locked => taken == [] && monitor.actions == 0 && monitor.attempt == 1
    case Watching => taken == [] && monitor.actions == 0 && monitor.attempt == 1
    case Monitoring => AllFailed(taken) && |taken| == monitor.actions == monitor.attempt - 1 < MAX_ACT_ATTEMPTS
    case Acting => AllFailed(taken) && |taken| == monitor.actions == monitor.attempt - 1 < MAX_ACT_ATTEMPTS
    case Leaving => Finished(monitor, taken)
    case Gone => Finished(monitor, taken)
  }

  predicate Finished(monitor: Monitor, taken: seq<Signal>) {
    if taken == [] then monitor.actions == 0 else CourseOf(taken) == Course(monitor.actions, false)
  }

  lemma {:induction false} FailuresThenOne(signals: seq<Signal>, signal: Signal)
    requires AllFailed(signals)
    ensures LeadingFailures(signals + [signal]) == |signals| + (if signal == Elapsed(false) then 1 else 0)
  {
    if signals == [] {
      assert LeadingFailures([signal][1..]) == 0;
    } else {
      assert (signals + [signal])[1..] == signals[1..] + [signal];
      FailuresThenOne(signals[1..], signal);
    }
  }

  lemma StepFollows(s: State, step: Step, taken: seq<Signal>)
    requires Enabled(s, step) && !step.StartEvent? && Follows(s.monitors[step.m], taken)
    ensures Follows(Apply(s, step).monitors[step.m], taken + TakenIn(step))
  {
    if step.Take? && !step.signal.Elapsed? {
      FailuresThenOne(taken, step.signal);
    } else if step.Act? {
      FailuresThenOne(taken, Elapsed(step.acted));
      assert AllFailed(taken + [Elapsed(false)]);
    } else {
      assert taken + [] == taken;
    }
  }

  /** However the monitors interleave, each acts as often as its loop would with the same signals alone. */
  lemma {:induction false} MonitorsFollowTheLoop(run: seq<State>, steps: seq<Step>, i: nat, m: nat)
    requires IsRun(run, steps) && i < |run|
    ensures m in run[i].monitors ==> Follows(run[i].monitors[m], Taken(steps[..i], m))
    ensures m !in run[i].monitors ==> Taken(steps[..i], m) == []
  {
    if i > 0 {
      MonitorsFollowTheLoop(run, steps, i - 1, m);
      var s, step := run[i - 1], steps[i - 1];
      assert Enabled(s, step);
      assert steps[..i][..i - 1] == steps[..i - 1];
      var before := Taken(steps[..i - 1], m);
      if step.m == m && !step.StartEvent? {
        StepFollows(s, step, before);
      } else {
        assert Taken(steps[..i], m) == before + [] == before;
      }
    }
  }

  /** A start event finds the lock taken exactly when a monitor of the same deposit and name runs. */
  lemma RefusedExactly(run: seq<State>, steps: seq<Step>, i: nat, m: nat)
    requires IsRun(run, steps) && i < |steps| && steps[i] == Acquire(m)
    requires forall n :: n in run[i].monitors ==> '-' !in run[i].monitors[n].name
    ensures m in run[i].monitors && m in run[i + 1].monitors
    ensures run[i + 1].monitors[m].phase == Gone <==> exists n :: SameMonitoring(run[i], m, n)
  {
    var s := run[i];
    assert Enabled(s, steps[i]);
    RunInvariant(run, steps, i);
    var key := Key(s.monitors[m]);
    if key in s.locks {
      var n :| Holds(s, n, key);
      LockKeysDiffer(s.monitors[m].deposit, s.monitors[n].deposit, s.monitors[m].name, s.monitors[n].name);
      assert SameMonitoring(s, m, n);
    } else {
      forall n ensures !SameMonitoring(s, m, n) {
        assert !Holds(s, n, key);
      }
    }
  }

  ghost predicate SameMonitoring(s: State, m: nat, n: nat)
    requires m in s.monitors
  {
    && n in s.monitors && Runs(s.monitors[n])
    && s.monitors[n].deposit == s.monitors[m].deposit
    && WithoutSpaces(s.monitors[n].name) == WithoutSpaces(s.monitors[m].name)
  }
}
