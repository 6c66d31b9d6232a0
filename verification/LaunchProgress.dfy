/** When a launch whose setup succeeds reaches its target. The child installs the filter first and
    hands over the notify descriptor second, so its own calls in between meet the new filter; the
    runs below never get stuck before the target if and only if the filter lets those calls by. */
module LaunchProgress {
  import opened JsonSpec
  import opened Profile
  import opened Filter
  import opened Pipeline
  import opened Launch
  import opened Wrappers

  /** Runs in which every step that can succeed does, and nobody is killed from outside. */
  predicate Successful(acts: seq<Act>) {
    forall a | a in acts :: a == Parent(true) || a == Child(true) || a == Monitor(true)
  }

  /** No process can go on. */
  predicate Terminal(setup: Setup, s: State) {
    Next(setup, s, Parent(true)).None? && Next(setup, s, Child(true)).None? && Next(setup, s, Monitor(true)).None?
  }

  /** The target has been executed. */
  predicate Executes(s: State) { |s.log| == |SCRIPT| }

  /** What the filter must do: notify some call, or it has no listener; and with the four calls the child
      makes behind it. */
  predicate Bootstraps(setup: Setup) {
    var write, send, close, exec :=
      setup.verdict(Write), setup.verdict(Sendmsg), setup.verdict(Close), setup.verdict(Execve);
    && Listens(setup)
    && !send.VNotify?
    && (setup.verbose ==> !write.VNotify?)
    && CloseReturns(setup)
    && (send.VErrno? ==> !write.VNotify? && exec.VAllow?)
    && (send.VAllow? ==> exec.VAllow? || (exec.VNotify? && setup.answer(Execve).Runs?))
  }

  predicate CloseReturns(setup: Setup) {
    setup.verdict(Close).VNotify? ==> setup.verdict(Sendmsg).VAllow? && !setup.answer(Close).Kills?
  }

  // ---------- what successful runs keep ----------

  /** Where the processes stand relative to each other. */
  predicate InStep(setup: Setup, s: State) {
    && !s.parent.PKillChild?
    && (s.child.CNone? <==> ParentPlace(s.parent) <= ParentPlace(PClone))
    && (s.monitor.MNone? <==> ParentPlace(s.parent) <= ParentPlace(PSpawn))
    && (s.facts.pidSent <==> ParentPlace(s.parent) >= ParentPlace(PWaitChild))
    && (ParentPlace(s.parent) > ParentPlace(PWaitChild) ==> s.child.CDead?)
    && (!s.facts.pidSent ==> s.child.CNone? || s.child.CReadPid?)
    && (s.monitor.MServe? || s.monitor.MGone? ==> s.facts.sent)
    && (s.monitor.MGone? ==> s.child.CDead?)
    && (s.facts.sent ==> setup.verdict(Sendmsg).VAllow? && Place(s.child) > Place(CSendFd))
    && (Place(s.child) > Place(CLogSendError) && setup.verdict(Sendmsg).VAllow? ==> s.facts.sent)
    && (s.parked ==> Filtered(s.child) && setup.verdict(SysOf(s.child)).VNotify?)
    && (s.facts.closed ==> Place(s.child) > Place(CCloseNotify))
    && (s.child.CLogReady? || s.child.CLogExec? ==> setup.verbose)
  }

  /** Whoever got past a call was let past it. */
  predicate Passed(setup: Setup, s: State) {
    && (Place(s.child) > Place(CLogReady) ==> setup.verbose ==> !setup.verdict(Write).VNotify?)
    && (Place(s.child) > Place(CSendFd) ==> !setup.verdict(Sendmsg).VNotify?)
    && (s.child.CLogSendError? ==> setup.verdict(Sendmsg).VErrno?)
    && (Place(s.child) > Place(CLogSendError) ==> setup.verdict(Sendmsg).VErrno? ==> !setup.verdict(Write).VNotify?)
    && (Place(CCloseSock) < Place(s.child) < Place(CDead) ==> CloseReturns(setup))
    && (Executes(s) ==> Bootstraps(setup))
    && (s.child.CDead? && Bootstraps(setup) ==> Executes(s))
    && (Executes(s) <== s.child.CTarget?)
    && (Executes(s) ==> s.child.CTarget? || s.child.CDead?)
  }

  lemma StartingInStep(setup: Setup, s: State)
    requires InStep(setup, s) && Passed(setup, s) && Sound(s) && Starting(s, true).Some?
    ensures InStep(setup, Starting(s, true).value) && Passed(setup, Starting(s, true).value)
  {
    assert s.child.CNone? && !s.facts.pidSent && |s.log| == 0;
    if s.parent.PClone? {
      hide Bootstraps, CloseReturns, InScript, Marked, ChildMarked, Sound;
    } else {
      hide Bootstraps, CloseReturns, Place, Sound, Executes;
    }
  }

  lemma AdmittingInStep(setup: Setup, s: State)
    requires InStep(setup, s) && Passed(setup, s) && Sound(s)
    requires ParentPlace(PClone) < ParentPlace(s.parent) <= ParentPlace(PNotifyChild)
    ensures InStep(setup, Admitting(s, true)) && Passed(setup, Admitting(s, true))
  {
    hide Bootstraps, CloseReturns, InScript, ChildMarked;
  }

  lemma EndingInStep(setup: Setup, s: State)
    requires InStep(setup, s) && Passed(setup, s) && Sound(s) && Ending(s, true).Some?
    ensures InStep(setup, Ending(s, true).value) && Passed(setup, Ending(s, true).value)
  {
    hide Bootstraps, CloseReturns, InScript, Marked, ChildMarked;
  }

  lemma ParentInStep(setup: Setup, s: State)
    requires InStep(setup, s) && Passed(setup, s) && Sound(s) && ParentAct(s, true).Some?
    ensures InStep(setup, ParentAct(s, true).value) && Passed(setup, ParentAct(s, true).value)
  {
    hide InStep, Passed, Sound, Starting, Admitting, Ending;
    if ParentPlace(s.parent) <= ParentPlace(PClone) { StartingInStep(setup, s); }
    else if ParentPlace(s.parent) <= ParentPlace(PNotifyChild) { AdmittingInStep(setup, s); }
    else { EndingInStep(setup, s); }
  }

  lemma UnfilteredInStep(setup: Setup, s: State)
    requires InStep(setup, s) && Passed(setup, s) && Sound(s) && !Filtered(s.child) && !s.parked
    requires Unfiltered(setup, s, true).Some? && Listens(setup)
    ensures InStep(setup, Unfiltered(setup, s, true).value) && Passed(setup, Unfiltered(setup, s, true).value)
  {
    UnfilteredStaysInStep(setup, s);
    hide InStep;
    UnfilteredPasses(setup, s);
  }

  lemma UnfilteredStaysInStep(setup: Setup, s: State)
    requires InStep(setup, s) && Sound(s) && !Filtered(s.child) && !s.parked
    requires Unfiltered(setup, s, true).Some? && Listens(setup)
    ensures InStep(setup, Unfiltered(setup, s, true).value)
  {
    hide InScript, Marked, ChildMarked;
  }

  lemma UnfilteredPasses(setup: Setup, s: State)
    requires InStep(setup, s) && Passed(setup, s) && Sound(s) && !Filtered(s.child) && !s.parked
    requires Unfiltered(setup, s, true).Some? && Listens(setup)
    ensures Passed(setup, Unfiltered(setup, s, true).value)
  {
    if s.child.CTarget? { TargetPasses(setup, s); } else { SetupPasses(setup, s); }
  }

  lemma TargetPasses(setup: Setup, s: State)
    requires Passed(setup, s) && s.child.CTarget?
    ensures Passed(setup, Killed(s))
  {
    hide Bootstraps, CloseReturns;
  }

  lemma SetupPasses(setup: Setup, s: State)
    requires InStep(setup, s) && Passed(setup, s) && Sound(s) && Place(s.child) <= Place(CInstall) && !s.parked
    requires Unfiltered(setup, s, true).Some? && Listens(setup)
    ensures Passed(setup, Unfiltered(setup, s, true).value)
  {
    hide Bootstraps, CloseReturns, InScript, Marked;
  }

  /** A call may return so: `ok` as the verdict or the monitor has it. */
  ghost predicate Returns(setup: Setup, s: State, ok: bool) {
    var v := setup.verdict(SysOf(s.child));
    (v.VAllow? && ok) || (v.VErrno? && !ok) ||
    (v.VNotify? && s.facts.sent && s.monitor.MServe? &&
     !setup.answer(SysOf(s.child)).Kills? && ok == setup.answer(SysOf(s.child)).Runs?) ||
    (v.VNotify? && !Listening(s) && !ok)
  }

  lemma CalledInStep(setup: Setup, s: State, ok: bool)
    requires Listens(setup)
    requires InStep(setup, s) && Passed(setup, s) && Sound(s) && Filtered(s.child) && !s.parked && Returns(setup, s, ok)
    ensures InStep(setup, Called(setup, s, ok)) && Passed(setup, Called(setup, s, ok))
  {
    CalledStaysInStep(setup, s, ok);
    hide InStep;
    CalledPasses(setup, s, ok);
  }

  /** The calls up to the handover. */
  predicate Early(c: ChildPc) { c.CLogReady? || c.CSendFd? || c.CLogSendError? }

  lemma CalledStaysInStep(setup: Setup, s: State, ok: bool)
    requires InStep(setup, s) && Filtered(s.child) && !s.parked && Returns(setup, s, ok)
    requires s.child.CLogSendError? ==> setup.verdict(Sendmsg).VErrno?
    ensures InStep(setup, Called(setup, s, ok))
  {
    if Early(s.child) { EarlyStaysInStep(setup, s, ok); } else { LateStaysInStep(setup, s, ok); }
  }

  lemma EarlyStaysInStep(setup: Setup, s: State, ok: bool)
    requires InStep(setup, s) && Early(s.child) && !s.parked && Returns(setup, s, ok)
    requires s.child.CLogSendError? ==> setup.verdict(Sendmsg).VErrno?
    ensures InStep(setup, Called(setup, s, ok))
  {
  }

  lemma LateStaysInStep(setup: Setup, s: State, ok: bool)
    requires InStep(setup, s) && Filtered(s.child) && !Early(s.child) && !s.parked && Returns(setup, s, ok)
    ensures InStep(setup, Called(setup, s, ok))
  {
  }

  lemma CalledPasses(setup: Setup, s: State, ok: bool)
    requires Listens(setup)
    requires InStep(setup, s) && Passed(setup, s) && Sound(s) && Filtered(s.child) && !s.parked && Returns(setup, s, ok)
    ensures Passed(setup, Called(setup, s, ok))
  {
    assert s.facts.pidSent;
    if Early(s.child) { EarlyPasses(setup, s, ok); }
    else if s.child.CExec? { ExecPasses(setup, s, ok); }
    else { ClosePasses(setup, s, ok); }
  }

  lemma EarlyPasses(setup: Setup, s: State, ok: bool)
    requires InStep(setup, s) && Passed(setup, s) && Sound(s) && Early(s.child) && !s.parked && Returns(setup, s, ok)
    ensures Passed(setup, Called(setup, s, ok))
  {
    hide Bootstraps, CloseReturns, InScript, Marked, ChildMarked;
  }

  lemma ClosePasses(setup: Setup, s: State, ok: bool)
    requires InStep(setup, s) && Passed(setup, s) && Sound(s) && !s.parked && Returns(setup, s, ok)
    requires s.child.CCloseSock? || s.child.CCloseNotify? || s.child.CLogExec?
    ensures Passed(setup, Called(setup, s, ok))
  {
    hide Bootstraps, InScript, Marked, ChildMarked;
  }

  lemma ExecPasses(setup: Setup, s: State, ok: bool)
    requires Listens(setup) && s.facts.pidSent
    requires InStep(setup, s) && Passed(setup, s) && Sound(s) && s.child.CExec? && !s.parked && Returns(setup, s, ok)
    ensures Passed(setup, Called(setup, s, ok))
  {
    hide InScript, Marked;
  }

  lemma ChildInStep(setup: Setup, s: State)
    requires Listens(setup)
    requires InStep(setup, s) && Passed(setup, s) && Sound(s) && ChildAct(setup, s, true).Some?
    ensures InStep(setup, ChildAct(setup, s, true).value) && Passed(setup, ChildAct(setup, s, true).value)
  {
    hide Called, Unfiltered, Bootstraps, CloseReturns;
    if s.parked {
      CalledInStep(setup, s.(parked := false), false);
    } else if !Filtered(s.child) {
      UnfilteredInStep(setup, s);
    } else {
      match setup.verdict(SysOf(s.child))
      case VAllow => CalledInStep(setup, s, true);
      case VErrno(_) => CalledInStep(setup, s, false);
      case VNotify => if !Listening(s) { CalledInStep(setup, s, false); }
    }
  }

  /** The monitor has answered the parked child. */
  lemma AnswerInStep(setup: Setup, s: State)
    requires Listens(setup)
    requires InStep(setup, s) && Passed(setup, s) && Sound(s) && s.monitor.MServe? && s.parked
    requires !setup.answer(SysOf(s.child)).Kills?
    ensures var t := Called(setup, s.(parked := false), setup.answer(SysOf(s.child)).Runs?);
      InStep(setup, t) && Passed(setup, t)
  {
    var unparked := s.(parked := false);
    assert Sound(unparked) && InStep(setup, unparked) && Passed(setup, unparked);
    hide Called, Bootstraps, CloseReturns, InScript, Marked, ChildMarked, Place, ParentPlace;
    CalledInStep(setup, unparked, setup.answer(SysOf(s.child)).Runs?);
  }

  lemma KilledInStep(setup: Setup, s: State)
    requires Listens(setup)
    requires InStep(setup, s) && Passed(setup, s) && Sound(s) && s.monitor.MServe? && s.parked
    requires setup.answer(SysOf(s.child)).Kills?
    ensures InStep(setup, Killed(s)) && Passed(setup, Killed(s))
  {
    hide InScript, Marked;
  }

  lemma MonitorInStep(setup: Setup, s: State)
    requires Listens(setup)
    requires InStep(setup, s) && Passed(setup, s) && Sound(s) && MonitorAct(setup, s, true).Some?
    ensures InStep(setup, MonitorAct(setup, s, true).value) && Passed(setup, MonitorAct(setup, s, true).value)
  {
    if s.monitor.MServe? && s.parked {
      hide Called, Killed, Sound, InStep, Passed;
      if setup.answer(SysOf(s.child)).Kills? { KilledInStep(setup, s); } else { AnswerInStep(setup, s); }
    } else {
      hide Called, Bootstraps, CloseReturns, InScript, Marked, ChildMarked;
    }
  }

  lemma ActInStep(setup: Setup, s: State, a: Act)
    requires Listens(setup)
    requires a == Parent(true) || a == Child(true) || a == Monitor(true)
    requires InStep(setup, s) && Passed(setup, s) && Sound(s) && Next(setup, s, a).Some?
    ensures InStep(setup, Next(setup, s, a).value) && Passed(setup, Next(setup, s, a).value)
  {
    hide Sound, InStep, Passed, ParentAct, ChildAct, MonitorAct;
    match a
    case Parent(_) => ParentInStep(setup, s);
    case Child(_) => ChildInStep(setup, s);
    case Monitor(_) => MonitorInStep(setup, s);
  }

  lemma {:induction false} RunInStep(setup: Setup, acts: seq<Act>)
    requires Listens(setup) && Successful(acts) && Run(setup, acts).Some?
    ensures var s := Run(setup, acts).value; Sound(s) && InStep(setup, s) && Passed(setup, s)
  {
    RunSound(setup, acts);
    if acts == [] {
    } else {
      hide Next, Sound, InStep, Passed;
      RunStep(setup, acts);
      hide Run;
      var n := |acts| - 1;
      assert acts[n] in acts;
      assert Successful(acts[..n]) by { assert forall a | a in acts[..n] :: a in acts; }
      RunInStep(setup, acts[..n]);
      RunSound(setup, acts[..n]);
      ActInStep(setup, Run(setup, acts[..n]).value, acts[n]);
    }
  }

  // ---------- progress, exactly ----------

  /** Under the condition some process can always go on until the target runs. */
  lemma NeverStuck(setup: Setup, s: State)
    requires Sound(s) && InStep(setup, s) && Passed(setup, s) && Bootstraps(setup) && !Executes(s)
    ensures !Terminal(setup, s)
  {
    if ParentPlace(s.parent) >= ParentPlace(PWaitChild) {
      if s.parked && Listening(s) { ParkedIsServed(setup, s); }
    }
  }

  /** A parked child has handed over the descriptor, and the monitor comes to answer it. */
  lemma ParkedIsServed(setup: Setup, s: State)
    requires Sound(s) && InStep(setup, s) && Passed(setup, s) && Bootstraps(setup) && !Executes(s)
    requires s.parked && Listening(s) && ParentPlace(s.parent) >= ParentPlace(PWaitChild)
    ensures s.facts.sent && MonitorAct(setup, s, true).Some?
  {
  }

  lemma RunGrows(setup: Setup, acts: seq<Act>, a: Act)
    requires Run(setup, acts).Some?
    ensures Run(setup, acts + [a]) == Next(setup, Run(setup, acts).value, a)
  {
    assert (acts + [a])[..|acts|] == acts;
  }

  /** Somebody who can go on. */
  lemma SomebodyCan(setup: Setup, s: State) returns (a: Act)
    requires !Terminal(setup, s)
    ensures a == Parent(true) || a == Child(true) || a == Monitor(true)
    ensures Next(setup, s, a).Some?
  {
    hide Next;
    a := if Next(setup, s, Parent(true)).Some? then Parent(true)
         else if Next(setup, s, Child(true)).Some? then Child(true) else Monitor(true);
  }

  /** Every run goes on, without further failures, to a state where nobody can. */
  lemma RunsOn(setup: Setup, acts: seq<Act>) returns (whole: seq<Act>)
    requires Run(setup, acts).Some?
    ensures acts <= whole && Successful(whole[|acts|..]) && Run(setup, whole).Some?
    ensures Successful(acts) ==> Successful(whole)
    ensures Terminal(setup, Run(setup, whole).value)
    decreases 53 - |acts|
  {
    hide Run, Next, Terminal;
    RunsEnd(setup, acts);
    if Terminal(setup, Run(setup, acts).value) { return acts; }
    var a := SomebodyCan(setup, Run(setup, acts).value);
    RunGrows(setup, acts, a);
    var longer := acts + [a];
    RunsEnd(setup, longer);
    whole := RunsOn(setup, longer);
    assert whole[|acts|..] == [a] + whole[|longer|..];
    assert whole == acts + whole[|acts|..];
  }

  /** No successful run gets stuck before the target is executed. */
  ghost predicate AlwaysLaunches(setup: Setup) {
    forall acts :: Successful(acts) && Run(setup, acts).Some? ==>
      Executes(Run(setup, acts).value) || !Terminal(setup, Run(setup, acts).value)
  }

  // ---------- without a listener ----------

  /** What every run keeps under a filter that notifies nothing. */
  predicate Barred(s: State) {
    !s.facts.sent && !s.parked && !s.monitor.MServe? && (Place(s.child) <= Place(CInstall) || s.child.CDead?)
  }

  lemma BarredParent(s: State, ok: bool)
    requires Barred(s) && ParentAct(s, ok).Some?
    ensures Barred(ParentAct(s, ok).value) && (Executed !in s.log ==> Executed !in ParentAct(s, ok).value.log)
  {
  }

  lemma BarredChild(setup: Setup, s: State, ok: bool)
    requires !Listens(setup) && Barred(s) && ChildAct(setup, s, ok).Some?
    ensures Barred(ChildAct(setup, s, ok).value)
    ensures Executed !in s.log ==> Executed !in ChildAct(setup, s, ok).value.log
  {
    hide Called, Listens, FilteredCall, Listening;
  }

  lemma BarredStays(setup: Setup, s: State, a: Act)
    requires !Listens(setup) && Barred(s) && Next(setup, s, a).Some?
    ensures Barred(Next(setup, s, a).value) && (Executed !in s.log ==> Executed !in Next(setup, s, a).value.log)
  {
    match a
    case Parent(ok) => BarredParent(s, ok); hide ParentAct, Barred;
    case Child(ok) => BarredChild(setup, s, ok); hide ChildAct, Barred;
    case _ => hide ParentAct, ChildAct, Called, Listens;
  }

  /** Without a listener no run executes the target, whatever happens in it, and the descriptor is never
      handed over. */
  lemma {:induction false} NoListenerNoLaunch(setup: Setup, acts: seq<Act>)
    requires !Listens(setup) && Run(setup, acts).Some?
    ensures Barred(Run(setup, acts).value) && Executed !in Run(setup, acts).value.log
  {
    if acts == [] {
    } else {
      RunStep(setup, acts);
      var n := |acts| - 1;
      NoListenerNoLaunch(setup, acts[..n]);
      hide Run, Next, Barred;
      BarredStays(setup, Run(setup, acts[..n]).value, acts[n]);
    }
  }

  /** And no run without failures comes to its end. */
  predicate Waiting(s: State) {
    (ParentPlace(s.parent) > ParentPlace(PSpawn) ==> s.monitor.MLoad? || s.monitor.MReceive?) && !s.parent.PExit?
  }

  lemma WaitingStays(setup: Setup, s: State, a: Act)
    requires a == Parent(true) || a == Child(true) || a == Monitor(true)
    requires Barred(s) && Waiting(s) && Sound(s) && Next(setup, s, a).Some?
    ensures Waiting(Next(setup, s, a).value)
  {
    hide Called, InScript, Marked, ChildMarked, Listens;
  }

  lemma {:induction false} NoListenerNoEnd(setup: Setup, acts: seq<Act>)
    requires !Listens(setup) && Successful(acts) && Run(setup, acts).Some?
    ensures Waiting(Run(setup, acts).value)
  {
    if acts == [] {
    } else {
      RunStep(setup, acts);
      var n := |acts| - 1;
      assert acts[n] in acts && forall a | a in acts[..n] :: a in acts;
      NoListenerNoEnd(setup, acts[..n]);
      NoListenerNoLaunch(setup, acts[..n]);
      RunSound(setup, acts[..n]);
      hide Run, Next, Barred, Waiting, Sound;
      WaitingStays(setup, Run(setup, acts[..n]).value, acts[n]);
    }
  }

  lemma ExecutesLogged(s: State)
    requires Sound(s) && Executes(s)
    ensures Executed in s.log
  {
    LogLengths(s.log);
    assert SCRIPT[11] == Executed;
  }

  // ---------- exactly when ----------

  /** Bootstrap progress. Together with `RunsEnd` this makes the target inevitable, in every
      interleaving, if and only if the filter has a listener, and filter and monitor let the bootstrap
      calls return. */
  lemma LaunchesExactly(setup: Setup)
    ensures AlwaysLaunches(setup) <==> Bootstraps(setup)
  {
    if Bootstraps(setup) {
      forall acts | Successful(acts) && Run(setup, acts).Some?
        ensures Executes(Run(setup, acts).value) || !Terminal(setup, Run(setup, acts).value)
      {
        RunInStep(setup, acts);
        if !Executes(Run(setup, acts).value) { NeverStuck(setup, Run(setup, acts).value); }
      }
    } else {
      var whole := RunsOn(setup, []);
      var s := Run(setup, whole).value;
      RunSound(setup, whole);
      if Listens(setup) {
        RunInStep(setup, whole);
      } else {
        NoListenerNoLaunch(setup, whole);
        if Executes(s) { ExecutesLogged(s); }
      }
      hide Run;
    }
  }

  /** The deadlock the profiles warn of: with NOTIFY on `sendmsg` the child waits for the monitor to
      answer, and the monitor waits for the message that call would send. If the child is verbose and
      `write` is notified too, it gets stuck one call earlier. */
  lemma SendmsgDeadlock(setup: Setup) returns (acts: seq<Act>)
    requires setup.verdict(Sendmsg).VNotify?
    ensures Successful(acts) && Run(setup, acts).Some?
    ensures Terminal(setup, Run(setup, acts).value) && Deadlocked(setup, Run(setup, acts).value)
  {
    acts := RunsOn(setup, []);
    RunInStep(setup, acts);
    TerminalIsDeadlocked(setup, Run(setup, acts).value);
  }

  /** Everybody waits: the parent for the child, the child for the monitor, and the monitor for the
      child. */
  predicate Deadlocked(setup: Setup, s: State) {
    && !Executes(s) && s.parent.PWaitChild? && s.monitor.MReceive? && s.parked
    && s.child == if setup.verbose && setup.verdict(Write).VNotify? then CLogReady else CSendFd
  }

  lemma TerminalIsDeadlocked(setup: Setup, s: State)
    requires Sound(s) && InStep(setup, s) && Passed(setup, s) && Terminal(setup, s)
    requires setup.verdict(Sendmsg).VNotify?
    ensures Deadlocked(setup, s)
  {
  }

  // ---------- a handover that never happens ----------

  /** The child is gone, or could not be started, and the descriptor was never sent, while the
      monitor waits for it. */
  predicate Orphaned(s: State) {
    && !s.facts.sent && !s.parked && (s.monitor.MLoad? || s.monitor.MReceive?)
    && (if s.child.CNone? then s.parent.PWaitMonitor?
        else s.child.CDead? && ParentPlace(s.parent) > ParentPlace(PClone))
  }

  /** It takes one failure: the child dies behind `clone`. */
  lemma ChildMayBeLost(setup: Setup) returns (acts: seq<Act>)
    ensures Run(setup, acts).Some? && Orphaned(Run(setup, acts).value) && Run(setup, acts).value.child.CDead?
    ensures |acts| == 6 && acts[..5] == seq(5, _ => Parent(true)) && acts[5] == KillChild
  {
    acts := [];
    for i := 0 to 5
      invariant acts == seq(i, _ => Parent(true)) && Run(setup, acts).Some?
      invariant Run(setup, acts).value == Prologue(i)
    {
      RunGrows(setup, acts, Parent(true));
      acts := acts + [Parent(true)];
    }
    RunGrows(setup, acts, KillChild);
    acts := acts + [KillChild];
  }

  /** The state behind the first `i` acts of a parent that meets no failure. */
  function Prologue(i: nat): State {
    match i
    case 0 => INIT
    case 1 => INIT.(parent := PPair)
    case 2 => INIT.(parent := PSpawn)
    case 3 => INIT.(parent := PPipe, monitor := MLoad)
    case 4 => INIT.(parent := PClone, monitor := MLoad)
    case _ => INIT.(parent := PSetgroups, monitor := MLoad, child := CReadPid)
  }

  /** From then on, unless the monitor fails to load or is killed, neither it nor the parent ever
      finishes, whatever else happens. */
  lemma {:induction false} HandoverLost(setup: Setup, acts: seq<Act>, more: seq<Act>)
    requires Run(setup, acts + more).Some? && Run(setup, acts).Some? && Orphaned(Run(setup, acts).value)
    requires !Run(setup, acts).value.parent.PExit?
    requires KillMonitor !in more && KillParent !in more && Monitor(false) !in more
    ensures var s := Run(setup, acts + more).value; Orphaned(s) && !s.parent.PExit?
  {
    hide Run, Next, Orphaned;
    if more == [] {
      assert acts + more == acts;
    } else {
      var n := |more| - 1;
      assert acts + more == (acts + more[..n]) + [more[n]];
      Shorter(setup, acts + more[..n], more[n]);
      RunGrows(setup, acts + more[..n], more[n]);
      HandoverLost(setup, acts, more[..n]);
      assert more[n] in more;
      OrphanStays(setup, Run(setup, acts + more[..n]).value, more[n]);
    }
  }

  lemma Shorter(setup: Setup, acts: seq<Act>, a: Act)
    requires Run(setup, acts + [a]).Some?
    ensures Run(setup, acts).Some? && Next(setup, Run(setup, acts).value, a).Some?
  {
    assert (acts + [a])[..|acts|] == acts;
  }

  lemma OrphanStays(setup: Setup, s: State, a: Act)
    requires Orphaned(s) && !s.parent.PExit? && Next(setup, s, a).Some?
    requires a != KillMonitor && a != KillParent && a != Monitor(false)
    ensures Orphaned(Next(setup, s, a).value) && !Next(setup, s, a).value.parent.PExit?
  {
  }

  // ---------- which launches come to an end ----------

  /** The child waits for an answer that nobody is there to give: its own copy of the listener is still open,
      or the descriptor is on its way to a monitor that has not taken it. */
  predicate Stranded(s: State) {
    s.parked && !s.monitor.MServe? &&
    (!s.facts.closed || (s.facts.sent && (s.monitor.MLoad? || s.monitor.MReceive?)))
  }

  /** What every run keeps in which the parent is not killed. */
  predicate Settled(s: State) {
    && (s.monitor.MServe? ==> s.facts.sent)
    && (s.facts.sent ==> Place(s.child) > Place(CSendFd))
    && (s.parent.PExit? ==> s.monitor.MNone? || s.monitor.MGone?)
    && (s.facts.waitFailed ==> s.parent.PWaitMonitor? || s.parent.PExit?)
    && (s.parent.PWaitMonitor? || s.parent.PExit? ==> s.facts.waitFailed || s.child.CNone? || s.child.CDead?)
  }

  lemma SettledStarting(s: State, ok: bool)
    requires Sound(s) && Settled(s) && Starting(s, ok).Some?
    ensures Settled(Starting(s, ok).value)
  {
    hide InScript, Marked, ChildMarked;
  }

  lemma SettledAdmitting(s: State, ok: bool)
    requires Sound(s) && Settled(s) && ParentPlace(PClone) < ParentPlace(s.parent) <= ParentPlace(PNotifyChild)
    ensures Settled(Admitting(s, ok))
  {
    hide InScript, Marked, ChildMarked;
  }

  lemma SettledEnding(s: State, ok: bool)
    requires Sound(s) && Settled(s) && Ending(s, ok).Some?
    ensures Settled(Ending(s, ok).value)
  {
    hide InScript, Marked, ChildMarked;
  }

  lemma SettledParent(s: State, ok: bool)
    requires Sound(s) && Settled(s) && ParentAct(s, ok).Some?
    ensures Settled(ParentAct(s, ok).value)
  {
    hide Starting, Admitting, Ending, Sound, Settled;
    if ParentPlace(s.parent) <= ParentPlace(PClone) { SettledStarting(s, ok); }
    else if ParentPlace(s.parent) <= ParentPlace(PNotifyChild) { SettledAdmitting(s, ok); }
    else { SettledEnding(s, ok); }
  }

  lemma SettledCalled(setup: Setup, s: State, ok: bool)
    requires Sound(s) && Settled(s) && Filtered(s.child)
    ensures Settled(Called(setup, s.(parked := false), ok))
  {
    hide InScript, Marked, ChildMarked;
  }

  lemma SettledChild(setup: Setup, s: State, ok: bool)
    requires Sound(s) && Settled(s) && ChildAct(setup, s, ok).Some?
    ensures Settled(ChildAct(setup, s, ok).value)
  {
    hide Called, SysOf, Listening, InScript, Marked, ChildMarked;
    if Filtered(s.child) {
      SettledCalled(setup, s, ok);
      SettledCalled(setup, s, false);
    }
  }

  lemma SettledMonitor(setup: Setup, s: State, ok: bool)
    requires Sound(s) && Settled(s) && MonitorAct(setup, s, ok).Some?
    ensures Settled(MonitorAct(setup, s, ok).value)
  {
    hide Called, SysOf, InScript, Marked, ChildMarked;
    if s.parked { SettledCalled(setup, s, setup.answer(SysOf(s.child)).Runs?); }
  }

  lemma SettledAct(setup: Setup, s: State, a: Act)
    requires Sound(s) && Settled(s) && a != KillParent && Next(setup, s, a).Some?
    ensures Settled(Next(setup, s, a).value)
  {
    hide ParentAct, ChildAct, MonitorAct, Sound;
    match a
    case Parent(ok) => SettledParent(s, ok);
    case Child(ok) => SettledChild(setup, s, ok);
    case Monitor(ok) => SettledMonitor(setup, s, ok);
    case _ =>
  }

  lemma {:induction false} RunSettled(setup: Setup, acts: seq<Act>)
    requires KillParent !in acts && Run(setup, acts).Some?
    ensures Sound(Run(setup, acts).value) && Settled(Run(setup, acts).value)
  {
    RunSound(setup, acts);
    if acts == [] {
    } else {
      hide Next, Sound, Settled;
      RunStep(setup, acts);
      hide Run;
      var n := |acts| - 1;
      RunSettled(setup, acts[..n]);
      assert acts[n] in acts;
      SettledAct(setup, Run(setup, acts[..n]).value, acts[n]);
    }
  }

  /** No child is left waiting at the pipe, whatever failed and whoever was killed, the parent included. */
  lemma NobodyAtThePipe(setup: Setup, acts: seq<Act>)
    requires Run(setup, acts).Some? && Terminal(setup, Run(setup, acts).value)
    ensures !Run(setup, acts).value.child.CReadPid?
  {
    RunSound(setup, acts);
    PipeIsRead(setup, Run(setup, acts).value);
  }

  lemma PipeIsRead(setup: Setup, s: State)
    requires Sound(s) && Terminal(setup, s)
    ensures !s.child.CReadPid?
  {
    hide InScript, Marked, ChildMarked, Listening, Called, Listens;
  }

  /** Which launches come to an end, over all interleavings, failures and kills but that of the parent
      itself: when nobody can go on any more, the parent has finished if and only if the monitor was
      not left waiting for a handover and the child does not wait for an answer that nobody gives. If
      `wait4` gave up on the child, only the monitor counts. */
  lemma FinishesExactly(setup: Setup, acts: seq<Act>)
    requires KillParent !in acts && Run(setup, acts).Some? && Terminal(setup, Run(setup, acts).value)
    ensures var s := Run(setup, acts).value;
      s.parent.PExit? <==> !Orphaned(s) && !(Stranded(s) && (!s.facts.waitFailed || s.monitor.MReceive?))
  {
    RunSettled(setup, acts);
    TerminalFinishes(setup, Run(setup, acts).value);
  }

  lemma TerminalFinishes(setup: Setup, s: State)
    requires Sound(s) && Settled(s) && Terminal(setup, s)
    ensures s.parent.PExit? <==> !Orphaned(s) && !(Stranded(s) && (!s.facts.waitFailed || s.monitor.MReceive?))
  {
    hide InScript, Marked, ChildMarked;
  }

  /** Every launch without failures comes to its end. */
  ghost predicate AlwaysFinishes(setup: Setup) {
    forall acts :: Successful(acts) && Run(setup, acts).Some? && Terminal(setup, Run(setup, acts).value) ==>
      Run(setup, acts).value.parent.PExit?
  }

  /** What lets a launch finish: a listener, `sendmsg` allowed, and `write` not notified for a verbose
      child. */
  predicate Finishes(setup: Setup) {
    Listens(setup) && setup.verdict(Sendmsg).VAllow? && (setup.verbose ==> !setup.verdict(Write).VNotify?)
  }

  /** Launches without failures finish if and only if the filter has a listener, allows `sendmsg` and, when
      the child is verbose, does not notify `write`. Otherwise none of them does. */
  lemma AlwaysFinishesExactly(setup: Setup)
    ensures AlwaysFinishes(setup) <==> Finishes(setup)
    ensures !Finishes(setup) ==>
      forall acts :: Successful(acts) && Run(setup, acts).Some? ==> !Run(setup, acts).value.parent.PExit?
  {
    hide Run, Terminal, Finishes;
    forall acts | Successful(acts) && Run(setup, acts).Some?
      ensures Run(setup, acts).value.parent.PExit? ==> Finishes(setup)
      ensures Terminal(setup, Run(setup, acts).value) && Finishes(setup) ==> Run(setup, acts).value.parent.PExit?
    {
      FinishesAsSetUp(setup, acts);
    }
    NoActs(setup);
    var whole := RunsOn(setup, []);
  }

  lemma NoActs(setup: Setup)
    ensures Successful([]) && Run(setup, []) == Some(INIT)
  {
  }

  lemma FinishesAsSetUp(setup: Setup, acts: seq<Act>)
    requires Successful(acts) && Run(setup, acts).Some?
    ensures Run(setup, acts).value.parent.PExit? ==> Finishes(setup)
    ensures Terminal(setup, Run(setup, acts).value) && Finishes(setup) ==> Run(setup, acts).value.parent.PExit?
  {
    if Listens(setup) {
      hide Run, Terminal, Listens;
      RunInStep(setup, acts);
      RunSettled(setup, acts);
      if Run(setup, acts).value.parent.PExit? { ExitInStep(setup, Run(setup, acts).value); }
      if Terminal(setup, Run(setup, acts).value) && Finishes(setup) { TerminalInStep(setup, Run(setup, acts).value); }
    } else {
      hide Run, Terminal, Listens;
      NoListenerNoEnd(setup, acts);
    }
  }

  lemma ExitInStep(setup: Setup, s: State)
    requires Listens(setup) && InStep(setup, s) && Passed(setup, s) && Settled(s) && s.parent.PExit?
    ensures Finishes(setup)
  {
    hide Bootstraps, CloseReturns, Executes;
  }

  lemma TerminalInStep(setup: Setup, s: State)
    requires Sound(s) && InStep(setup, s) && Passed(setup, s) && Settled(s) && Terminal(setup, s)
    requires Finishes(setup)
    ensures s.parent.PExit?
  {
    hide InScript, Marked, ChildMarked, Bootstraps, CloseReturns, Executes;
    if s.parked { ParkedWasSent(setup, s); }
  }

  lemma ParkedWasSent(setup: Setup, s: State)
    requires InStep(setup, s) && Passed(setup, s) && s.parked && Finishes(setup)
    ensures s.facts.sent && !s.child.CDead?
  {
  }

  // ---------- the conditions, read off a profile ----------

  /** The x86-64 numbers of the bootstrap calls. */
  function NumberOf(c: Sys): int {
    match c case Write => 1 case Sendmsg => 46 case Close => 3 case Execve => 59
  }

  function ReplyOf(m: ProfileDoc, c: Sys): Reply {
    var a := MonitorLookup(m, SyscallName(NumberOf(c))).0;
    if a.Allow? then Runs else if a.Kill? then Kills else Fails
  }

  /** The architecture has the bootstrap calls: write, sendmsg, close and execve. */
  predicate Known(missing: set<int>) { 1 !in missing && 46 !in missing && 3 !in missing && 59 !in missing }

  /** The launch of a profile that profile.c sees as `c` and policy.rs as `m`: the compiled filter, and the
      monitor's policy. */
  function ProfileSetup(verbose: bool, c: ProfileDoc, m: ProfileDoc, libc: Libc, missing: set<int>): Setup {
    Setup(verbose, call => FilterVerdict(c, libc, missing, NumberOf(call)), Notifies(c, libc, missing),
      call => ReplyOf(m, call))
  }

  /** The verdicts a profile leads to, and its listener. */
  lemma ProfileVerdict(verbose: bool, c: ProfileDoc, m: ProfileDoc, libc: Libc, missing: set<int>)
    requires Known(missing)
    ensures var setup := ProfileSetup(verbose, c, m, libc, missing);
      && (forall call: Sys :: var (a, e) := TableAnswer(c, libc, NumberOf(call)); setup.verdict(call) == ToScmp(a, e))
      && setup.verdict(Write) == ToScmp(TableAnswer(c, libc, 1).0, TableAnswer(c, libc, 1).1)
      && setup.verdict(Sendmsg) == ToScmp(TableAnswer(c, libc, 46).0, TableAnswer(c, libc, 46).1)
      && setup.verdict(Close) == ToScmp(TableAnswer(c, libc, 3).0, TableAnswer(c, libc, 3).1)
      && setup.verdict(Execve) == ToScmp(TableAnswer(c, libc, 59).0, TableAnswer(c, libc, 59).1)
      && (Listens(setup) <==> Notifies(c, libc, missing))
  {
    var setup := ProfileSetup(verbose, c, m, libc, missing);
    forall call: Sys | setup.verdict(call).VNotify? ensures Notifies(c, libc, missing) {
      if !ToMonitor(c.default) { NotifiedByRule(TableOf(c, libc), c.default, missing, NumberOf(call)); }
    }
  }

  /** A profile that allows the four bootstrap calls, by rule or by default, launches if and only if it
      sends some call to the monitor. If it sends none, nothing is ever executed. */
  lemma AllowingProfileLaunches(verbose: bool, c: ProfileDoc, m: ProfileDoc, libc: Libc, missing: set<int>)
    requires Known(missing)
    requires TableAnswer(c, libc, 1).0.Allow? && TableAnswer(c, libc, 46).0.Allow?
    requires TableAnswer(c, libc, 3).0.Allow? && TableAnswer(c, libc, 59).0.Allow?
    ensures var setup := ProfileSetup(verbose, c, m, libc, missing);
      && (AlwaysLaunches(setup) <==> Notifies(c, libc, missing))
      && (!Notifies(c, libc, missing) ==>
            forall acts :: Run(setup, acts).Some? ==> Executed !in Run(setup, acts).value.log)
  {
    var setup := ProfileSetup(verbose, c, m, libc, missing);
    ProfileVerdict(verbose, c, m, libc, missing);
    LaunchesExactly(setup);
    assert setup.verdict(Write).VAllow? && setup.verdict(Sendmsg).VAllow?;
    assert setup.verdict(Close).VAllow? && setup.verdict(Execve).VAllow?;
    if !Notifies(c, libc, missing) {
      forall acts | Run(setup, acts).Some? ensures Executed !in Run(setup, acts).value.log {
        NoListenerNoLaunch(setup, acts);
      }
    }
  }

  /** A profile that notifies or kills on `sendmsg` locks up its own launch. */
  lemma NotifyingProfileLocks(verbose: bool, c: ProfileDoc, m: ProfileDoc, libc: Libc, missing: set<int>)
    returns (acts: seq<Act>)
    requires Known(missing) && ToMonitor(TableAnswer(c, libc, 46).0)
    ensures var setup := ProfileSetup(verbose, c, m, libc, missing);
      Successful(acts) && Run(setup, acts).Some? &&
      Terminal(setup, Run(setup, acts).value) && Deadlocked(setup, Run(setup, acts).value)
  {
    ProfileVerdict(verbose, c, m, libc, missing);
    acts := SendmsgDeadlock(ProfileSetup(verbose, c, m, libc, missing));
  }

  /** A launch of a profile comes to its end, if nothing fails, exactly when the profile sends some call to
      the monitor, allows `sendmsg` and, for a verbose child, neither notifies nor kills on `write`. */
  lemma ProfileFinishesExactly(verbose: bool, c: ProfileDoc, m: ProfileDoc, libc: Libc, missing: set<int>)
    requires Known(missing)
    ensures AlwaysFinishes(ProfileSetup(verbose, c, m, libc, missing)) <==>
      && Notifies(c, libc, missing)
      && TableAnswer(c, libc, 46).0.Allow?
      && (verbose ==> !ToMonitor(TableAnswer(c, libc, 1).0))
  {
    ProfileVerdict(verbose, c, m, libc, missing);
    AlwaysFinishesExactly(ProfileSetup(verbose, c, m, libc, missing));
  }

  /** The monitor cannot name close and execve. */
  lemma UnknownReplies(m: ProfileDoc)
    ensures ReplyOf(m, Close).Kills? <==> MonitorLookup(m, "syscall_unknown").0.Kill?
    ensures ReplyOf(m, Execve).Runs? <==> MonitorLookup(m, "syscall_unknown").0.Allow?
  {
    assert SyscallName(3) == UNKNOWN && SyscallName(59) == UNKNOWN;
    hide MonitorLookup, SyscallName;
  }

  /** The whole condition for a launch, read off a profile. */
  lemma ProfileLaunchesExactly(verbose: bool, c: ProfileDoc, m: ProfileDoc, libc: Libc, missing: set<int>)
    requires Known(missing)
    ensures var write, send := TableAnswer(c, libc, 1).0, TableAnswer(c, libc, 46).0;
      var close, exec := TableAnswer(c, libc, 3).0, TableAnswer(c, libc, 59).0;
      AlwaysLaunches(ProfileSetup(verbose, c, m, libc, missing)) <==>
        && Notifies(c, libc, missing)
        && !ToMonitor(send)
        && (verbose ==> !ToMonitor(write))
        && (ToMonitor(close) ==> send.Allow? && !MonitorLookup(m, "syscall_unknown").0.Kill?)
        && (send.Errno? ==> !ToMonitor(write) && exec.Allow?)
        && (send.Allow? ==> exec.Allow? || (ToMonitor(exec) && MonitorLookup(m, "syscall_unknown").0.Allow?))
  {
    ProfileVerdict(verbose, c, m, libc, missing);
    LaunchesExactly(ProfileSetup(verbose, c, m, libc, missing));
    hide AlwaysLaunches, Notifies, ReplyOf, TableAnswer, Listens, MonitorLookup, SyscallName;
    UnknownReplies(m);
    assert forall call: Sys ::
      ProfileSetup(verbose, c, m, libc, missing).verdict(call) ==
      ToScmp(TableAnswer(c, libc, NumberOf(call)).0, TableAnswer(c, libc, NumberOf(call)).1);
  }
}
