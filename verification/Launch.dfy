/** The launch protocol (main.c, sandbox.c, ipc.c, ipc.rs, main.rs) as a labelled transition system:
    parent, child, monitor and kernel interleave through the sync pipe, the datagram socket and the
    notify descriptor. A run is any sequence of acts; every act that can fail may fail, and every
    process may be killed at any time. */
module Launch {
  import opened Filter
  import opened Wrappers

  datatype ParentPc =
    | PCgroup | PPair | PSpawn | PPipe | PClone
    | PSetgroups | PUidMap | PGidMap | PAttach | PNotifyChild
    | PKillChild | PWaitChild | PWaitMonitor | PExit

  /** `CTarget` is the executed target; the calls from `CLogReady` on pass the new filter. */
  datatype ChildPc =
    | CNone | CReadPid | CSetIds | CDumpable | COverlay | CProc | CHostname
    | CNoNewPrivs | CDropCaps | CInstall
    | CLogReady | CSendFd | CLogSendError | CCloseSock | CCloseNotify | CLogExec | CExec
    | CTarget | CDead

  datatype MonitorPc = MNone | MLoad | MReceive | MServe | MGone

  datatype Event =
    | Setgroups | UidMap | GidMap | Attach | PidSent | PidRead
    | Ids | Overlay | NoNewPrivs | CapsDropped | FilterLoaded | Executed

  /** The only order in which the marked steps can happen. */
  const SCRIPT: seq<Event> :=
    [Setgroups, UidMap, GidMap, Attach, PidSent, PidRead,
     Ids, Overlay, NoNewPrivs, CapsDropped, FilterLoaded, Executed]

  /** What has happened: the pid is in the pipe, the notify descriptor has left the child, the child's own
      copy of it is closed, a map write failed, `wait4` gave up on a living child. */
  datatype Facts = Facts(pidSent: bool, sent: bool, closed: bool, mapFailed: bool, waitFailed: bool)

  /** `parked`: the child waits in the kernel for an answer to its current call. */
  datatype State = State(
    parent: ParentPc, child: ChildPc, parked: bool, monitor: MonitorPc,
    facts: Facts, log: seq<Event>)

  datatype Sys = Write | Sendmsg | Close | Execve

  datatype Reply = Runs | Fails | Kills

  /** What a run depends on: verbose logging, the filter (its verdicts on the child's own calls, and
      whether it notifies any other call), and the monitor's answers. */
  datatype Setup = Setup(verbose: bool, verdict: Sys -> Verdict, notifiesElse: bool, answer: Sys -> Reply)

  /** A filter that notifies no call has no listener, and the install fails. */
  predicate Listens(setup: Setup) {
    setup.notifiesElse || setup.verdict(Write).VNotify? || setup.verdict(Sendmsg).VNotify? ||
    setup.verdict(Close).VNotify? || setup.verdict(Execve).VNotify?
  }

  datatype Act = Parent(ok: bool) | Child(ok: bool) | Monitor(ok: bool) | KillChild | KillMonitor | KillParent

  const INIT: State := State(PCgroup, CNone, false, MNone, Facts(false, false, false, false, false), [])

  // ---------- the acts ----------

  /** `main` and `sb_sandbox_run`. */
  function ParentAct(s: State, ok: bool): Option<State> {
    if ParentPlace(s.parent) <= ParentPlace(PClone) then Starting(s, ok)
    else if ParentPlace(s.parent) <= ParentPlace(PNotifyChild) then Some(Admitting(s, ok))
    else Ending(s, ok)
  }

  function Starting(s: State, ok: bool): Option<State> {
    match s.parent
    case PCgroup => Some(s.(parent := PPair))
    case PPair => Some(s.(parent := if ok then PSpawn else PExit))
    case PSpawn => Some(s.(parent := PPipe, monitor := if ok then MLoad else MNone))
    case PPipe => Some(s.(parent := if ok then PClone else PWaitMonitor))
    case PClone => if ok then Some(s.(parent := PSetgroups, child := CReadPid)) else Some(s.(parent := PWaitMonitor))
    case _ => None
  }

  function Admitting(s: State, ok: bool): State {
    match s.parent
    case PSetgroups => MapWritten(s, ok, Setgroups, PUidMap)
    case PUidMap => MapWritten(s, ok, UidMap, PGidMap)
    case PGidMap => MapWritten(s, ok, GidMap, PAttach)
    case PAttach => s.(parent := PNotifyChild, log := s.log + [Attach])
    case PNotifyChild =>
      if ok then s.(parent := PWaitChild, facts := s.facts.(pidSent := true), log := s.log + [PidSent])
      else Killed(s).(parent := PWaitChild)
    case _ => s
  }

  function Ending(s: State, ok: bool): Option<State> {
    match s.parent
    case PKillChild => Some(Killed(s).(parent := PWaitMonitor))
    case PWaitChild =>
      if s.child.CDead? then Some(s.(parent := PWaitMonitor))
      else if !ok then Some(s.(parent := PWaitMonitor, facts := s.facts.(waitFailed := true)))
      else None
    case PWaitMonitor => if s.monitor.MNone? || s.monitor.MGone? then Some(s.(parent := PExit)) else None
    case _ => None
  }

  /** One write of `parent_setup_userns`; a failure ends in killing the child. */
  function MapWritten(s: State, ok: bool, e: Event, next: ParentPc): State {
    if ok then s.(parent := next, log := s.log + [e])
    else s.(parent := PKillChild, facts := s.facts.(mapFailed := true))
  }

  function Killed(s: State): State { s.(child := CDead, parked := false) }

  /** Is the parent beyond the write, with its end of the pipe closed? */
  predicate PipeClosed(p: ParentPc) { p.PWaitChild? || p.PWaitMonitor? || p.PExit? }

  /** `child_entry` */
  function ChildAct(setup: Setup, s: State, ok: bool): Option<State> {
    if s.parked then (if Listening(s) then None else Some(Called(setup, s.(parked := false), false)))
    else if Filtered(s.child) then Some(FilteredCall(setup, s, ok))
    else Unfiltered(setup, s, ok)
  }

  /** Does the child's next call pass the new filter? */
  predicate Filtered(c: ChildPc) { Place(CLogReady) <= Place(c) <= Place(CExec) }

  /** The steps of the child up to the filter, and the end of the target. */
  function Unfiltered(setup: Setup, s: State, ok: bool): Option<State>
    requires !Filtered(s.child)
  {
    match s.child
    case CReadPid =>
      if s.facts.pidSent then Some(if ok then s.(child := CSetIds, log := s.log + [PidRead]) else Killed(s))
      else if PipeClosed(s.parent) then Some(Killed(s))
      else None
    case CSetIds => Some(if ok then s.(child := CDumpable, log := s.log + [Ids]) else Killed(s))
    case CDumpable => Some(s.(child := COverlay))
    case COverlay => Some(if ok then s.(child := CProc, log := s.log + [Overlay]) else Killed(s))
    case CProc => Some(s.(child := CHostname))
    case CHostname => Some(s.(child := CNoNewPrivs))
    case CNoNewPrivs => Some(if ok then s.(child := CDropCaps, log := s.log + [NoNewPrivs]) else Killed(s))
    case CDropCaps => Some(if ok then s.(child := CInstall, log := s.log + [CapsDropped]) else Killed(s))
    case CInstall =>
      Some(if ok && Listens(setup)
           then s.(child := if setup.verbose then CLogReady else CSendFd, log := s.log + [FilterLoaded])
           else Killed(s))
    case CTarget => Some(Killed(s))
    case _ => None
  }

  /** A call of the child behind the filter: it returns, or the child parks. */
  function FilteredCall(setup: Setup, s: State, ok: bool): State {
    match setup.verdict(SysOf(s.child))
    case VAllow => Called(setup, s, ok)
    case VErrno(_) => Called(setup, s, false)
    case VNotify => if Listening(s) then s.(parked := true) else Called(setup, s, false)
  }

  /** The call the child makes at a place behind the filter. */
  function SysOf(c: ChildPc): Sys {
    match c
    case CSendFd => Sendmsg
    case CCloseSock => Close
    case CCloseNotify => Close
    case CExec => Execve
    case _ => Write
  }

  /** Someone still holds the listener: the child itself, until a `close` of it has returned or the target
      is executed; the message in flight; or the monitor. */
  predicate Listening(s: State) {
    || (Filtered(s.child) && !s.facts.closed)
    || (s.facts.sent && (s.monitor.MLoad? || s.monitor.MReceive?))
    || s.monitor.MServe?
  }

  /** The call at the child's place has returned. */
  function Called(setup: Setup, s: State, ok: bool): State {
    match s.child
    case CLogReady => s.(child := CSendFd)
    case CSendFd => if ok then s.(child := CCloseSock, facts := s.facts.(sent := true)) else s.(child := CLogSendError)
    case CLogSendError => s.(child := CCloseSock)
    case CCloseSock => s.(child := CCloseNotify)
    case CCloseNotify =>
      s.(child := if setup.verbose then CLogExec else CExec, facts := if ok then s.facts.(closed := true) else s.facts)
    case CLogExec => s.(child := CExec)
    case CExec => if ok then s.(child := CTarget, log := s.log + [Executed]) else Killed(s)
    case _ => s
  }

  /** The monitor up to its event loop, and its answers to the child's own calls. */
  function MonitorAct(setup: Setup, s: State, ok: bool): Option<State> {
    match s.monitor
    case MLoad => Some(s.(monitor := if ok then MReceive else MGone))
    case MReceive => if s.facts.sent then Some(s.(monitor := if ok then MServe else MGone)) else None
    case MServe =>
      if s.parked then
        var a := setup.answer(SysOf(s.child));
        Some(if a.Kills? then Killed(s) else Called(setup, s.(parked := false), a.Runs?))
      else if s.child.CDead? then Some(s.(monitor := MGone))
      else None
    case _ => None
  }

  function Next(setup: Setup, s: State, a: Act): Option<State> {
    match a
    case Parent(ok) => ParentAct(s, ok)
    case Child(ok) => ChildAct(setup, s, ok)
    case Monitor(ok) => MonitorAct(setup, s, ok)
    case KillChild => if s.child.CNone? || s.child.CDead? then None else Some(Killed(s))
    case KillMonitor => if s.monitor.MNone? || s.monitor.MGone? then None else Some(s.(monitor := MGone))
    case KillParent => if s.parent.PExit? then None else Some(s.(parent := PExit))
  }

  /** The state behind a run, if the run is possible. */
  function Run(setup: Setup, acts: seq<Act>): Option<State> {
    if acts == [] then Some(INIT) else
    match Run(setup, acts[..|acts| - 1])
    case None => None
    case Some(s) => Next(setup, s, acts[|acts| - 1])
  }

  // ---------- every run ends ----------

  function Place(c: ChildPc): nat {
    match c
    case CNone => 0 case CReadPid => 1 case CSetIds => 2 case CDumpable => 3 case COverlay => 4
    case CProc => 5 case CHostname => 6 case CNoNewPrivs => 7 case CDropCaps => 8 case CInstall => 9
    case CLogReady => 10 case CSendFd => 11 case CLogSendError => 12 case CCloseSock => 13
    case CCloseNotify => 14 case CLogExec => 15 case CExec => 16 case CTarget => 17 case CDead => 18
  }

  function ParentPlace(p: ParentPc): nat {
    match p
    case PCgroup => 0 case PPair => 1 case PSpawn => 2 case PPipe => 3 case PClone => 4
    case PSetgroups => 5 case PUidMap => 6 case PGidMap => 7 case PAttach => 8 case PNotifyChild => 9
    case PKillChild => 10 case PWaitChild => 11 case PWaitMonitor => 12 case PExit => 13
  }

  function MonitorPlace(m: MonitorPc): nat {
    match m case MNone => 0 case MLoad => 1 case MReceive => 2 case MServe => 3 case MGone => 4
  }

  /** Grows with every act. */
  function Progress(s: State): nat {
    ParentPlace(s.parent) + ChildProgress(s.child, s.parked) + MonitorPlace(s.monitor)
  }

  function ChildProgress(c: ChildPc, parked: bool): nat { 2 * Place(c) + (if parked then 1 else 0) }

  /** `t` differs from `s` in the child, which is further on. */
  predicate ChildMoved(s: State, t: State) {
    t.parent == s.parent && t.monitor == s.monitor && !t.parked && Place(t.child) > Place(s.child)
  }

  lemma MoveAdvances(s: State, t: State)
    requires ChildMoved(s, t)
    ensures Progress(t) > Progress(s)
  {
    hide Place, ParentPlace, MonitorPlace;
  }

  lemma CalledMoves(setup: Setup, s: State, ok: bool)
    requires Filtered(s.child)
    ensures ChildMoved(s, Called(setup, s.(parked := false), ok))
  {
  }

  lemma CalledAdvances(setup: Setup, s: State, ok: bool)
    requires Filtered(s.child)
    ensures Progress(Called(setup, s.(parked := false), ok)) > Progress(s)
  {
    hide Called, Progress, ChildMoved, Filtered;
    CalledMoves(setup, s, ok);
    MoveAdvances(s, Called(setup, s.(parked := false), ok));
  }

  lemma UnfilteredMoves(setup: Setup, s: State, ok: bool)
    requires !Filtered(s.child) && !s.parked && Unfiltered(setup, s, ok).Some?
    ensures ChildMoved(s, Unfiltered(setup, s, ok).value)
  {
  }

  lemma UnfilteredAdvances(setup: Setup, s: State, ok: bool)
    requires !Filtered(s.child) && !s.parked && Unfiltered(setup, s, ok).Some?
    ensures Progress(Unfiltered(setup, s, ok).value) > Progress(s)
  {
    hide Unfiltered, Progress, ChildMoved, Filtered;
    UnfilteredMoves(setup, s, ok);
    MoveAdvances(s, Unfiltered(setup, s, ok).value);
  }

  lemma StartingAdvances(s: State, ok: bool)
    requires s.child.CNone? && !s.parked <== s.parent.PClone?
    requires s.monitor.MNone? <== s.parent.PSpawn?
    requires Starting(s, ok).Some?
    ensures Progress(Starting(s, ok).value) > Progress(s)
  {
    assert ChildProgress(CNone, false) <= ChildProgress(CReadPid, false);
    hide ChildProgress;
  }

  lemma AdmittingAdvances(s: State, ok: bool)
    requires s.parked ==> Filtered(s.child)
    requires ParentPlace(PClone) < ParentPlace(s.parent) <= ParentPlace(PNotifyChild)
    ensures Progress(Admitting(s, ok)) > Progress(s)
  {
    assert ChildProgress(s.child, s.parked) <= ChildProgress(CDead, false);
    hide ChildProgress, MonitorPlace, Filtered;
    match s.parent
    case PSetgroups => case PUidMap => case PGidMap => case PAttach => case PNotifyChild => case _ =>
  }

  lemma EndingAdvances(s: State, ok: bool)
    requires s.parked ==> Filtered(s.child)
    requires Ending(s, ok).Some?
    ensures Progress(Ending(s, ok).value) > Progress(s)
  {
    assert ChildProgress(s.child, s.parked) <= ChildProgress(CDead, false);
    hide ChildProgress, MonitorPlace, Filtered;
  }

  lemma ParentAdvances(s: State, ok: bool)
    requires Sound(s) && ParentAct(s, ok).Some?
    ensures Progress(ParentAct(s, ok).value) > Progress(s)
  {
    hide Starting, Admitting, Ending, Progress, InScript, Marked, ChildMarked;
    if ParentPlace(s.parent) <= ParentPlace(PClone) { StartingAdvances(s, ok); }
    else if ParentPlace(s.parent) <= ParentPlace(PNotifyChild) { AdmittingAdvances(s, ok); }
    else { EndingAdvances(s, ok); }
  }

  lemma ChildAdvances(setup: Setup, s: State, ok: bool)
    requires (s.parked ==> Filtered(s.child)) && ChildAct(setup, s, ok).Some?
    ensures Progress(ChildAct(setup, s, ok).value) > Progress(s)
  {
    hide Called, Unfiltered, SysOf, Listening, ParentPlace, MonitorPlace;
    if Filtered(s.child) {
      CalledAdvances(setup, s, ok);
      CalledAdvances(setup, s, false);
    } else {
      UnfilteredAdvances(setup, s, ok);
    }
  }

  lemma MonitorAdvances(setup: Setup, s: State, ok: bool)
    requires (s.parked ==> Filtered(s.child)) && MonitorAct(setup, s, ok).Some?
    ensures Progress(MonitorAct(setup, s, ok).value) > Progress(s)
  {
    hide Called, SysOf, ParentPlace;
    if s.parked { CalledAdvances(setup, s, setup.answer(SysOf(s.child)).Runs?); }
  }

  lemma Advances(setup: Setup, s: State, a: Act)
    requires Sound(s) && Next(setup, s, a).Some?
    ensures Progress(Next(setup, s, a).value) > Progress(s)
  {
    match a
    case Parent(ok) => ParentAdvances(s, ok);
    case Child(ok) => ChildAdvances(setup, s, ok);
    case Monitor(ok) => MonitorAdvances(setup, s, ok);
    case _ => hide ParentAct, ChildAct, MonitorAct, InScript, Marked, ChildMarked;
  }

  // ---------- safety ----------

  /** How many marked steps the parent has behind it at a place before the write. */
  function Marked(p: ParentPc): nat {
    if ParentPlace(p) <= 5 then 0 else if p.PUidMap? then 1 else if p.PGidMap? then 2
    else if p.PAttach? then 3 else 4
  }

  /** How many marked steps all have behind them when the child is at a place beyond the read. */
  function ChildMarked(c: ChildPc): nat {
    var n := Place(c);
    if n <= 1 then 5 else if n == 2 then 6 else if n <= 4 then 7 else if n <= 7 then 8
    else if n == 8 then 9 else if n == 9 then 10 else if n <= 16 then 11 else 12
  }

  /** What holds in every reachable state. */
  ghost predicate Sound(s: State) {
    && InScript(s.log)
    && (ParentPlace(s.parent) < ParentPlace(PKillChild) ==>
          |s.log| == Marked(s.parent) && !s.facts.pidSent && !s.facts.mapFailed)
    && (s.parent.PKillChild? ==> !s.facts.pidSent)
    && (s.facts.mapFailed ==> !s.facts.pidSent)
    && (!s.facts.pidSent ==> |s.log| <= 4 && (s.child.CNone? || s.child.CReadPid? || s.child.CDead?))
    && (s.facts.pidSent ==> |s.log| >= 5 && (!s.child.CDead? ==> |s.log| == ChildMarked(s.child)) && !s.child.CNone?)
    && (s.parked ==> Filtered(s.child))
    && (s.parent.PWaitChild? || s.parent.PWaitMonitor? ==> s.facts.pidSent || s.child.CDead? || s.child.CNone?)
    && (s.child.CNone? <== ParentPlace(s.parent) <= ParentPlace(PClone))
    && (s.monitor.MNone? <== ParentPlace(s.parent) <= ParentPlace(PSpawn))
    && (s.child.CNone? && !s.parent.PExit? ==> ParentPlace(s.parent) <= ParentPlace(PClone) || s.parent.PWaitMonitor?)
  }

  ghost predicate InScript(log: seq<Event>) { log <= SCRIPT }

  /** The place of a step in the script. */
  function Index(e: Event): (n: nat)
    ensures n < |SCRIPT| && SCRIPT[n] == e
  {
    match e
    case Setgroups => 0 case UidMap => 1 case GidMap => 2 case Attach => 3 case PidSent => 4 case PidRead => 5
    case Ids => 6 case Overlay => 7 case NoNewPrivs => 8 case CapsDropped => 9 case FilterLoaded => 10
    case Executed => 11
  }

  lemma ScriptStep(log: seq<Event>, e: Event)
    requires InScript(log) && |log| == Index(e)
    ensures InScript(log + [e])
  {
  }

  lemma StartingKeeps(s: State, ok: bool)
    requires Sound(s) && Starting(s, ok).Some?
    ensures Sound(Starting(s, ok).value)
  {
    hide InScript;
  }

  lemma AdmittingKeeps(s: State, ok: bool)
    requires Sound(s) && ParentPlace(PClone) < ParentPlace(s.parent) <= ParentPlace(PNotifyChild)
    ensures Sound(Admitting(s, ok))
  {
    hide InScript;
    match s.parent
    case PSetgroups => ScriptStep(s.log, Setgroups);
    case PUidMap => ScriptStep(s.log, UidMap);
    case PGidMap => ScriptStep(s.log, GidMap);
    case PAttach => ScriptStep(s.log, Attach);
    case PNotifyChild => ScriptStep(s.log, PidSent);
    case _ =>
  }

  lemma EndingKeeps(s: State, ok: bool)
    requires Sound(s) && Ending(s, ok).Some?
    ensures Sound(Ending(s, ok).value)
  {
    hide InScript;
  }

  lemma ParentKeeps(s: State, ok: bool)
    requires Sound(s) && ParentAct(s, ok).Some?
    ensures Sound(ParentAct(s, ok).value)
  {
    hide Starting, Admitting, Ending, InScript;
    if ParentPlace(s.parent) <= ParentPlace(PClone) { StartingKeeps(s, ok); }
    else if ParentPlace(s.parent) <= ParentPlace(PNotifyChild) { AdmittingKeeps(s, ok); }
    else { EndingKeeps(s, ok); }
  }

  lemma CalledKeeps(setup: Setup, s: State, ok: bool)
    requires Sound(s) && !s.parked && Filtered(s.child)
    ensures Sound(Called(setup, s, ok))
  {
    hide InScript, Listening, Marked;
    if s.child.CExec? { ScriptStep(s.log, Executed); }
  }

  lemma KilledKeeps(s: State)
    requires Sound(s) && !s.child.CNone?
    ensures Sound(Killed(s))
  {
    hide InScript, Marked, ChildMarked;
  }

  /** The child goes on, with or without a mark in the log. */
  lemma MoveKeeps(s: State, c: ChildPc, log: seq<Event>)
    requires Sound(s) && s.facts.pidSent && !s.parked && !c.CNone? && !c.CDead?
    requires InScript(log) && |log| == ChildMarked(c) && !s.child.CNone?
    ensures Sound(s.(child := c, log := log))
  {
    hide InScript, Marked, Place;
  }

  lemma MarkKeeps(s: State, c: ChildPc, e: Event)
    requires Sound(s) && s.facts.pidSent && !s.parked && !c.CNone? && !c.CDead? && !s.child.CNone?
    requires |s.log| == Index(e) && Index(e) + 1 == ChildMarked(c)
    ensures Sound(s.(child := c, log := s.log + [e]))
  {
    ScriptStep(s.log, e);
    hide Sound;
    MoveKeeps(s, c, s.log + [e]);
  }

  /** The first steps behind the pipe. */
  lemma EarlyKeeps(setup: Setup, s: State, ok: bool)
    requires Sound(s) && s.facts.pidSent && !s.parked
    requires s.child.CReadPid? || s.child.CSetIds? || s.child.CDumpable? || s.child.COverlay?
    requires Unfiltered(setup, s, ok).Some?
    ensures Sound(Unfiltered(setup, s, ok).value)
  {
    KilledKeeps(s);
    assert |s.log| == ChildMarked(s.child);
    hide Sound, InScript, Killed, Marked;
    match s.child
    case CReadPid => MarkKeeps(s, CSetIds, PidRead);
    case CSetIds => MarkKeeps(s, CDumpable, Ids);
    case CDumpable => MoveKeeps(s, COverlay, s.log);
    case COverlay => MarkKeeps(s, CProc, Overlay);
  }

  /** The steps up to the filter. */
  lemma LateKeeps(setup: Setup, s: State, ok: bool)
    requires Sound(s) && s.facts.pidSent && !s.parked
    requires s.child.CProc? || s.child.CHostname? || s.child.CNoNewPrivs? || s.child.CDropCaps? || s.child.CInstall?
    requires Unfiltered(setup, s, ok).Some?
    ensures Sound(Unfiltered(setup, s, ok).value)
  {
    KilledKeeps(s);
    assert |s.log| == ChildMarked(s.child);
    hide Sound, InScript, Listens, Killed, Marked;
    match s.child
    case CProc => MoveKeeps(s, CHostname, s.log);
    case CHostname => MoveKeeps(s, CNoNewPrivs, s.log);
    case CNoNewPrivs => MarkKeeps(s, CDropCaps, NoNewPrivs);
    case CDropCaps => MarkKeeps(s, CInstall, CapsDropped);
    case CInstall => MarkKeeps(s, if setup.verbose then CLogReady else CSendFd, FilterLoaded);
  }

  lemma UnfilteredKeeps(setup: Setup, s: State, ok: bool)
    requires Sound(s) && !s.parked && !Filtered(s.child) && Unfiltered(setup, s, ok).Some?
    ensures Sound(Unfiltered(setup, s, ok).value)
  {
    if s.facts.pidSent && !s.child.CTarget? {
      hide Sound, Unfiltered;
      if Place(s.child) <= Place(COverlay) { EarlyKeeps(setup, s, ok); } else { LateKeeps(setup, s, ok); }
    } else {
      assert s.child.CReadPid? || s.child.CTarget?;
      hide InScript, Marked, ChildMarked;
    }
  }

  lemma ChildKeeps(setup: Setup, s: State, ok: bool)
    requires Sound(s) && ChildAct(setup, s, ok).Some?
    ensures Sound(ChildAct(setup, s, ok).value)
  {
    hide Called, Unfiltered, SysOf, Listening;
    if s.parked || Filtered(s.child) {
      CalledKeeps(setup, s.(parked := false), ok);
      CalledKeeps(setup, s.(parked := false), false);
    } else {
      UnfilteredKeeps(setup, s, ok);
    }
  }

  lemma MonitorKeeps(setup: Setup, s: State, ok: bool)
    requires Sound(s) && MonitorAct(setup, s, ok).Some?
    ensures Sound(MonitorAct(setup, s, ok).value)
  {
    hide Called, SysOf;
    if s.monitor.MServe? && s.parked { CalledKeeps(setup, s.(parked := false), setup.answer(SysOf(s.child)).Runs?); }
  }

  lemma NextKeeps(setup: Setup, s: State, a: Act)
    requires Sound(s) && Next(setup, s, a).Some?
    ensures Sound(Next(setup, s, a).value)
  {
    match a
    case Parent(ok) => ParentKeeps(s, ok); hide ParentAct, Sound;
    case Child(ok) => ChildKeeps(setup, s, ok); hide ChildAct, Sound;
    case Monitor(ok) => MonitorKeeps(setup, s, ok); hide MonitorAct, Sound;
    case _ => hide InScript, Marked, ChildMarked, ParentAct, ChildAct, MonitorAct;
  }

  lemma {:induction false} RunSound(setup: Setup, acts: seq<Act>)
    requires Run(setup, acts).Some?
    ensures Sound(Run(setup, acts).value)
  {
    if acts == [] {
    } else {
      RunStep(setup, acts);
      var n := |acts| - 1;
      RunSound(setup, acts[..n]);
      NextKeeps(setup, Run(setup, acts[..n]).value, acts[n]);
    }
  }

  lemma LogLengths(log: seq<Event>)
    requires InScript(log)
    ensures |log| == |SCRIPT| ==> log == SCRIPT
    ensures |log| <= 4 ==> PidRead !in log && Executed !in log
  {
    assert forall i :: 0 <= i < |log| ==> log[i] == SCRIPT[i];
  }

  /** Launch safety. Over all interleavings and failures the marked steps happen in one order only;
      the target runs only after all of them; after a failed map write the child never gets past the
      pipe; and the parent waits for no child that it has not told its pid, unless it is dead. */
  lemma LaunchSafety(setup: Setup, acts: seq<Act>)
    requires Run(setup, acts).Some?
    ensures var s := Run(setup, acts).value;
      && InScript(s.log)
      && (s.child.CTarget? ==> s.log == SCRIPT)
      && (s.facts.mapFailed ==> PidRead !in s.log && Executed !in s.log)
      && (s.parent.PWaitChild? ==> s.facts.pidSent || s.child.CDead? || s.child.CNone?)
  {
    hide Run, Sound;
    RunSound(setup, acts);
    SoundIsSafe(Run(setup, acts).value);
  }

  lemma SoundIsSafe(s: State)
    requires Sound(s)
    ensures InScript(s.log) && (s.child.CTarget? ==> s.log == SCRIPT)
    ensures s.facts.mapFailed ==> PidRead !in s.log && Executed !in s.log
    ensures s.parent.PWaitChild? ==> s.facts.pidSent || s.child.CDead? || s.child.CNone?
  {
    LogLengths(s.log);
    hide InScript;
  }

  lemma RunStep(setup: Setup, acts: seq<Act>)
    requires acts != [] && Run(setup, acts).Some?
    ensures var n := |acts| - 1;
      Run(setup, acts[..n]).Some? && Run(setup, acts) == Next(setup, Run(setup, acts[..n]).value, acts[n])
  {
  }

  // ---------- failures ----------

  /** A step that must not fail, and does: of the parent from the socket pair to the pid on the pipe, or of the
      child from the pid to the filter. What may fail is the cgroup, the monitor, the attach, the dumpable flag,
      /proc and the host name. */
  predicate Fails(s: State, a: Act) {
    match a
    case Parent(false) =>
      s.parent.PPair? || s.parent.PPipe? || s.parent.PClone? || s.parent.PSetgroups? || s.parent.PUidMap? ||
      s.parent.PGidMap? || s.parent.PNotifyChild?
    case Child(false) =>
      s.child.CReadPid? || s.child.CSetIds? || s.child.COverlay? || s.child.CNoNewPrivs? || s.child.CDropCaps? ||
      s.child.CInstall?
    case _ => false
  }

  /** No child will ever execute the target. */
  predicate Lost(s: State) {
    s.facts.mapFailed || s.child.CDead? || (s.child.CNone? && ParentPlace(s.parent) > ParentPlace(PClone))
  }

  lemma FailsLost(setup: Setup, s: State, a: Act)
    requires Sound(s) && Fails(s, a) && Next(setup, s, a).Some?
    ensures Lost(Next(setup, s, a).value) && Next(setup, s, a).value.log == s.log && Executed !in s.log
  {
    if a.Parent? { ParentFails(s); } else { ChildFails(setup, s); }
    NotYetExecuted(s.log);
    hide Fails, Lost, Sound, InScript, ParentAct, ChildAct;
  }

  lemma ParentFails(s: State)
    requires Sound(s) && Fails(s, Parent(false)) && ParentAct(s, false).Some?
    ensures Lost(ParentAct(s, false).value) && ParentAct(s, false).value.log == s.log
    ensures InScript(s.log) && |s.log| < 12
  {
    hide InScript, ChildMarked;
  }

  lemma ChildFails(setup: Setup, s: State)
    requires Sound(s) && Fails(s, Child(false)) && ChildAct(setup, s, false).Some?
    ensures Lost(ChildAct(setup, s, false).value) && ChildAct(setup, s, false).value.log == s.log
    ensures InScript(s.log) && |s.log| < 12
  {
    hide InScript, Marked, Called, FilteredCall, Listening, Listens;
  }

  lemma NotYetExecuted(log: seq<Event>)
    requires InScript(log) && |log| < 12
    ensures Executed !in log
  {
    assert forall i :: 0 <= i < |log| ==> log[i] == SCRIPT[i];
  }

  lemma LostStays(setup: Setup, s: State, a: Act)
    requires Sound(s) && Lost(s) && Executed !in s.log && Next(setup, s, a).Some?
    ensures Lost(Next(setup, s, a).value) && Executed !in Next(setup, s, a).value.log
  {
    if s.facts.mapFailed {
      StaysFailed(setup, s, a);
      NextKeeps(setup, s, a);
      SoundIsSafe(Next(setup, s, a).value);
      hide Next, Sound;
    } else {
      NobodyLeft(setup, s, a);
    }
  }

  lemma StaysFailed(setup: Setup, s: State, a: Act)
    requires s.facts.mapFailed && Next(setup, s, a).Some?
    ensures Next(setup, s, a).value.facts.mapFailed
  {
    hide Listening, Listens, SysOf, Place, ParentPlace;
    match a
    case Parent(ok) => ParentStaysFailed(s, ok); hide ParentAct;
    case Child(ok) => ChildStaysFailed(setup, s, ok); hide ChildAct;
    case Monitor(ok) =>
      hide Called;
      CalledStaysFailed(setup, s.(parked := false), setup.answer(SysOf(s.child)).Runs?);
    case _ => hide ParentAct, ChildAct, MonitorAct;
  }

  lemma ParentStaysFailed(s: State, ok: bool)
    requires s.facts.mapFailed && ParentAct(s, ok).Some?
    ensures ParentAct(s, ok).value.facts.mapFailed
  {
    hide ParentPlace;
  }

  lemma CalledStaysFailed(setup: Setup, s: State, ok: bool)
    requires s.facts.mapFailed
    ensures Called(setup, s, ok).facts.mapFailed
  {
  }

  lemma ChildStaysFailed(setup: Setup, s: State, ok: bool)
    requires s.facts.mapFailed && ChildAct(setup, s, ok).Some?
    ensures ChildAct(setup, s, ok).value.facts.mapFailed
  {
    CalledStaysFailed(setup, s.(parked := false), false);
    CalledStaysFailed(setup, s, false);
    CalledStaysFailed(setup, s, ok);
    hide Called, Listening, Listens, SysOf, Place, PipeClosed;
  }

  lemma NobodyLeft(setup: Setup, s: State, a: Act)
    requires Sound(s) && Executed !in s.log && Next(setup, s, a).Some?
    requires s.child.CDead? || (s.child.CNone? && ParentPlace(s.parent) > ParentPlace(PClone))
    ensures Lost(Next(setup, s, a).value) && Executed !in Next(setup, s, a).value.log
  {
    assert !s.parked && !Filtered(s.child);
    assert ParentPlace(s.parent) > ParentPlace(if s.child.CNone? then PNotifyChild else PClone);
    hide Sound, Called, Listening, Listens, FilteredCall;
    match a
    case Parent(ok) => NobodyLeftParent(s, ok); hide ParentAct, Lost;
    case _ => hide ParentAct;
  }

  lemma NobodyLeftParent(s: State, ok: bool)
    requires Executed !in s.log && ParentAct(s, ok).Some? && (s.child.CDead? || s.child.CNone?)
    requires ParentPlace(s.parent) > ParentPlace(if s.child.CNone? then PNotifyChild else PClone)
    ensures Lost(ParentAct(s, ok).value) && Executed !in ParentAct(s, ok).value.log
  {
  }

  /** A step that must not fail stops the launch when it does: whatever else happens in the run, the target is
      never executed. */
  lemma {:induction false} FailedStepStops(setup: Setup, acts: seq<Act>, i: nat)
    requires Run(setup, acts).Some? && i < |acts|
    requires Run(setup, acts[..i]).Some? && Fails(Run(setup, acts[..i]).value, acts[i])
    ensures Lost(Run(setup, acts).value) && Executed !in Run(setup, acts).value.log
    decreases |acts|
  {
    hide Next, Sound, Lost, Fails;
    var n := |acts| - 1;
    RunStep(setup, acts);
    RunSound(setup, acts[..n]);
    if i == n {
      FailsLost(setup, Run(setup, acts[..n]).value, acts[n]);
    } else {
      assert acts[..n][..i] == acts[..i];
      FailedStepStops(setup, acts[..n], i);
      LostStays(setup, Run(setup, acts[..n]).value, acts[n]);
    }
  }

  /** No monitor will ever serve. */
  predicate Unserved(s: State) { s.monitor.MGone? || (s.monitor.MNone? && ParentPlace(s.parent) > ParentPlace(PSpawn)) }

  /** The monitor fails to start, to load its profile or to take the descriptor, or is killed. */
  predicate MonitorFails(s: State, a: Act) {
    match a
    case Parent(false) => s.parent.PSpawn?
    case Monitor(false) => s.monitor.MLoad? || s.monitor.MReceive?
    case KillMonitor => true
    case _ => false
  }

  lemma UnservedFrom(setup: Setup, s: State, a: Act)
    requires MonitorFails(s, a) || Unserved(s)
    requires Sound(s) && Next(setup, s, a).Some?
    ensures Unserved(Next(setup, s, a).value)
  {
    hide Called, FilteredCall, Unfiltered, Listening, InScript, Marked, ChildMarked;
    match a
    case Child(ok) => ChildKeepsOthers(setup, s, ok); hide ChildAct;
    case _ =>
  }

  lemma ChildKeepsOthers(setup: Setup, s: State, ok: bool)
    requires ChildAct(setup, s, ok).Some?
    ensures ChildAct(setup, s, ok).value.monitor == s.monitor && ChildAct(setup, s, ok).value.parent == s.parent
  {
    hide Listening, Listens, SysOf;
  }

  /** A monitor that failed serves nobody for the rest of the run. */
  lemma {:induction false} FailedMonitorStops(setup: Setup, acts: seq<Act>, i: nat)
    requires Run(setup, acts).Some? && i < |acts|
    requires Run(setup, acts[..i]).Some? && MonitorFails(Run(setup, acts[..i]).value, acts[i])
    ensures Unserved(Run(setup, acts).value)
    decreases |acts|
  {
    hide Next, Sound, Unserved, MonitorFails;
    var n := |acts| - 1;
    RunStep(setup, acts);
    RunSound(setup, acts[..n]);
    if i == n {
    } else {
      assert acts[..n][..i] == acts[..i];
      FailedMonitorStops(setup, acts[..n], i);
    }
    UnservedFrom(setup, Run(setup, acts[..n]).value, acts[n]);
  }

  /** The `close` of the descriptor is refused: by the filter, or by the monitor's answer. */
  predicate CloseRefused(setup: Setup) {
    setup.verdict(Close).VErrno? || (setup.verdict(Close).VNotify? && !setup.answer(Close).Runs?)
  }

  /** The child's copy of the listener is open, and a parked child waits at a call that is notified. */
  predicate Open(setup: Setup, s: State) { !s.facts.closed && (s.parked ==> setup.verdict(SysOf(s.child)).VNotify?) }

  lemma StaysOpen(setup: Setup, s: State, a: Act)
    requires CloseRefused(setup) && Open(setup, s) && Sound(s) && Next(setup, s, a).Some?
    ensures Open(setup, Next(setup, s, a).value)
  {
    hide Listening, Listens, Place, ParentPlace;
    match a
    case Parent(ok) => ParentLeavesOpen(setup, s, ok); hide ParentAct;
    case Child(ok) => ChildLeavesOpen(setup, s, ok); hide ChildAct;
    case _ => hide ParentAct, ChildAct;
  }

  lemma ParentLeavesOpen(setup: Setup, s: State, ok: bool)
    requires Open(setup, s) && Sound(s) && ParentAct(s, ok).Some?
    ensures Open(setup, ParentAct(s, ok).value)
  {
    hide ParentPlace, InScript, Marked, ChildMarked;
  }

  lemma ChildLeavesOpen(setup: Setup, s: State, ok: bool)
    requires CloseRefused(setup) && Open(setup, s) && ChildAct(setup, s, ok).Some?
    ensures Open(setup, ChildAct(setup, s, ok).value)
  {
    hide Listening, Listens, Place, PipeClosed;
  }

  /** If the `close` is refused the child keeps its copy of the listener until it executes the target. */
  lemma {:induction false} RefusedCloseKeepsOpen(setup: Setup, acts: seq<Act>)
    requires CloseRefused(setup) && Run(setup, acts).Some?
    ensures Open(setup, Run(setup, acts).value)
  {
    if acts == [] {
    } else {
      hide Next, CloseRefused, Open, Sound;
      var n := |acts| - 1;
      RunStep(setup, acts);
      RunSound(setup, acts[..n]);
      RefusedCloseKeepsOpen(setup, acts[..n]);
      StaysOpen(setup, Run(setup, acts[..n]).value, acts[n]);
    }
  }

  /** Whatever can go on can fail, `wait4` can give up on a living child, and every process can be killed as
      long as it lives. */
  lemma EverythingMayFail(setup: Setup, s: State)
    ensures Next(setup, s, KillParent).Some? <==> !s.parent.PExit?
    ensures Next(setup, s, KillChild).Some? <==> !s.child.CNone? && !s.child.CDead?
    ensures Next(setup, s, KillMonitor).Some? <==> !s.monitor.MNone? && !s.monitor.MGone?
    ensures Next(setup, s, Parent(true)).Some? ==> Next(setup, s, Parent(false)).Some?
    ensures Next(setup, s, Child(true)).Some? ==> Next(setup, s, Child(false)).Some?
    ensures Next(setup, s, Monitor(true)).Some? ==> Next(setup, s, Monitor(false)).Some?
    ensures s.parent.PWaitChild? ==>
      Next(setup, s, Parent(false)).Some? && Next(setup, s, Parent(false)).value.parent.PWaitMonitor?
  {
    hide Listening, Called, Listens, SysOf;
  }

  /** A listener is there exactly if some call is notified. */
  lemma ListensExactly(setup: Setup)
    ensures Listens(setup) <==> setup.notifiesElse || exists c: Sys :: setup.verdict(c).VNotify?
  {
    if c: Sys :| setup.verdict(c).VNotify? {
      match c case Write => case Sendmsg => case Close => case Execve =>
    }
    var c := if setup.verdict(Write).VNotify? then Write else if setup.verdict(Sendmsg).VNotify? then Sendmsg
      else if setup.verdict(Close).VNotify? then Close else Execve;
    assert Listens(setup) && !setup.notifiesElse ==> setup.verdict(c).VNotify?;
  }

  lemma ProgressBound(s: State)
    requires Sound(s)
    ensures Progress(s) <= 53
  {
    hide InScript, Marked, ChildMarked;
  }

  /** No run is longer than 53 acts. */
  lemma {:induction false} RunsEnd(setup: Setup, acts: seq<Act>)
    requires Run(setup, acts).Some?
    ensures |acts| <= Progress(Run(setup, acts).value) <= 53
  {
    hide Run, Next, Progress, Sound;
    RunSound(setup, acts);
    ProgressBound(Run(setup, acts).value);
    if acts == [] {
    } else {
      RunStep(setup, acts);
      var n := |acts| - 1;
      RunsEnd(setup, acts[..n]);
      RunSound(setup, acts[..n]);
      Advances(setup, Run(setup, acts[..n]).value, acts[n]);
    }
  }
}
