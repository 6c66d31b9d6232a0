/** db.rs and the two threads of main.rs and telemetry.rs that write one locked audit log. */
module Audit {
  import opened Wrappers

  datatype Exec = Exec(id: int, ended: bool)
  datatype EventRow = EventRow(id: int, exec: int, nr: int)
  datatype SampleRow = SampleRow(id: int, exec: int, mem: nat, cpu: nat)

  /** The three tables, in insertion order, and the last id each has given out. */
  datatype Db = Db(execs: seq<Exec>, events: seq<EventRow>, samples: seq<SampleRow>,
                   lastExec: nat, lastEvent: nat, lastSample: nat)

  function Start(db: Db): (Db, int) {
    var id := db.lastExec + 1;
    (db.(execs := db.execs + [Exec(id, false)], lastExec := id), id)
  }

  function End(db: Db, exec: int): Db {
    db.(execs := seq(|db.execs|, i requires 0 <= i < |db.execs| =>
      if db.execs[i].id == exec then Exec(exec, true) else db.execs[i]))
  }

  function AddEvent(db: Db, exec: int, nr: int): Db {
    db.(events := db.events + [EventRow(db.lastEvent + 1, exec, nr)], lastEvent := db.lastEvent + 1)
  }

  function AddSample(db: Db, exec: int, mem: nat, cpu: nat): Db {
    db.(samples := db.samples + [SampleRow(db.lastSample + 1, exec, mem, cpu)], lastSample := db.lastSample + 1)
  }

  ghost predicate Newest(samples: seq<SampleRow>, exec: int, id: int) {
    forall t | t in samples && t.exec == exec :: t.id <= id
  }

  /** `ORDER BY id DESC LIMIT 1` among the samples of one execution. */
  ghost predicate IsLastSample(samples: seq<SampleRow>, exec: int, r: Option<(nat, nat)>) {
    match r
    case None => forall s | s in samples :: s.exec != exec
    case Some(x) => exists s :: s in samples && s.exec == exec && (s.mem, s.cpu) == x && Newest(samples, exec, s.id)
  }

  /** `e` has the greatest id. */
  ghost predicate NewestEvent(events: seq<EventRow>, e: EventRow) { forall f | f in events :: f == e || f.id < e.id }

  ghost predicate Ordered(db: Db) {
    && (forall i, j :: 0 <= i < j < |db.samples| ==> db.samples[i].id < db.samples[j].id)
    && (forall i, j :: 0 <= i < j < |db.events| ==> db.events[i].id < db.events[j].id)
    && (forall i :: 0 <= i < |db.events| ==> db.events[i].id <= db.lastEvent)
    && (forall i :: 0 <= i < |db.samples| ==> db.samples[i].id <= db.lastSample)
    && (forall i :: 0 <= i < |db.execs| ==> db.execs[i].id <= db.lastExec)
  }

  class AuditDb {
    var db: Db

    constructor (db: Db)
      ensures this.db == db
    {
      this.db := db;
    }

    /** The id is one that no row has had, nothing refers to it yet, and every row stays. */
    method RecordExecutionStart() returns (id: int)
      modifies this
      ensures (db, id) == Start(old(db))
      ensures id == old(db).lastExec + 1 && db.execs == old(db).execs + [Exec(id, false)]
      ensures db.events == old(db).events && db.samples == old(db).samples
      ensures Valid(old(db)) ==>
        Valid(db) && !HasExec(old(db), id) && HasExec(db, id) && IsLastSample(db.samples, id, None)
    {
      id := db.lastExec + 1;
      if Valid(db) { StartKeeps(db); }
      db := db.(execs := db.execs + [Exec(id, false)], lastExec := db.lastExec + 1);
    }

    /** Exactly the rows of that execution are ended, and nothing else changes. */
    method RecordExecutionEnd(exec: int)
      modifies this
      ensures db == End(old(db), exec)
      ensures |db.execs| == |old(db).execs| && forall i :: 0 <= i < |db.execs| ==>
        db.execs[i] == if old(db).execs[i].id == exec then Exec(exec, true) else old(db).execs[i]
      ensures db.events == old(db).events && db.samples == old(db).samples
    {
      var execs := db.execs;
      for i := 0 to |execs|
        invariant |execs| == |db.execs|
        invariant forall j :: 0 <= j < i ==>
          execs[j] == if db.execs[j].id == exec then Exec(exec, true) else db.execs[j]
        invariant execs[i..] == db.execs[i..]
        invariant db == old(db)
      {
        assert execs[i] == execs[i..][0] == db.execs[i..][0];
        assert execs[i + 1..] == execs[i..][1..] == db.execs[i + 1..];
        if execs[i].id == exec { execs := execs[i := Exec(exec, true)]; }
      }
      assert execs == End(db, exec).execs;
      db := db.(execs := execs);
    }

    /** One event more, behind all others, and nothing else. For an execution that exists, the log stays in
        order and its newest event is this one. */
    method RecordSyscallEvent(exec: int, nr: int)
      modifies this
      ensures db == AddEvent(old(db), exec, nr)
      ensures db.events == old(db).events + [EventRow(old(db).lastEvent + 1, exec, nr)]
      ensures db.execs == old(db).execs && db.samples == old(db).samples
      ensures Valid(old(db)) && HasExec(old(db), exec) ==>
        Valid(db) && exists e :: e in db.events && e.exec == exec && e.nr == nr && NewestEvent(db.events, e)
    {
      if Valid(db) && HasExec(db, exec) { EventKeeps(db, exec, nr); }
      var row := EventRow(db.lastEvent + 1, exec, nr);
      db := db.(events := db.events + [row], lastEvent := row.id);
    }

    /** One sample more. For an execution that exists, the log stays in order, this is now its last sample, and the last
        samples of all others are what they were. */
    method RecordResourceSample(exec: int, mem: nat, cpu: nat)
      modifies this
      ensures db == AddSample(old(db), exec, mem, cpu)
      ensures db.samples == old(db).samples + [SampleRow(old(db).lastSample + 1, exec, mem, cpu)]
      ensures db.execs == old(db).execs && db.events == old(db).events
      ensures Valid(old(db)) && HasExec(old(db), exec) ==>
        Valid(db) && IsLastSample(db.samples, exec, Some((mem, cpu))) &&
        forall x, r :: x != exec && IsLastSample(old(db).samples, x, r) ==> IsLastSample(db.samples, x, r)
    {
      if Valid(db) && HasExec(db, exec) { SampleKeeps(db, exec, mem, cpu); }
      var row := SampleRow(db.lastSample + 1, exec, mem, cpu);
      db := db.(samples := db.samples + [row], lastSample := row.id);
    }

    /** `get_last_sample` */
    method GetLastSample(exec: int) returns (r: Option<(nat, nat)>)
      requires Ordered(db)
      ensures IsLastSample(db.samples, exec, r)
    {
      var i := |db.samples|;
      while i > 0
        invariant 0 <= i <= |db.samples|
        invariant forall j :: i <= j < |db.samples| ==> db.samples[j].exec != exec
      {
        i := i - 1;
        if db.samples[i].exec == exec {
          assert db.samples[i] in db.samples;
          return Some((db.samples[i].mem, db.samples[i].cpu));
        }
      }
      r := None;
    }
  }

  // ---------- the two threads ----------

  datatype MainPc = MStart | MLoop | MJoin | MEnd | MOom | MSummary

  /** The telemetry thread tests the stop flag (`TCheck`), then sleeps, reads and inserts
      (`TSample`). */
  datatype TelePc = TIdle | TCheck | TSample | TDone

  /** The writes of this monitor, in order. */
  datatype Op = OpStart | OpEvent(nr: int) | OpSample(mem: nat, cpu: nat) | OpEnd | OpOom

  datatype State = State(main: MainPc, tele: TelePc, stop: bool, exec: int, db: Db, log: seq<Op>)

  /** One atomic step: of the main thread, of the telemetry thread, or of another monitor that
      writes the same file. */
  datatype Act =
    | Record(nr: int)     // the loop audits a notification
    | Leave               // the loop ends and the stop flag is set
    | Join
    | Finish              // the end update
    | Oom(killed: bool)
    | Begin
    | Tele(mem: nat, cpu: nat)
    | OtherStart
    | OtherEnd(exec: int)
    | OtherEvent(exec: int, nr: int)
    | OtherSample(exec: int, mem: nat, cpu: nat)

  predicate HasExec(db: Db, exec: int) { exists i :: 0 <= i < |db.execs| && db.execs[i].id == exec }

  function Next(s: State, a: Act): Option<State> {
    match a
    case Begin =>
      if !s.main.MStart? then None else
      var (db, id) := Start(s.db);
      Some(State(MLoop, TCheck, false, id, db, [OpStart]))
    case Record(nr) =>
      if s.main.MLoop? then Some(s.(db := AddEvent(s.db, s.exec, nr), log := s.log + [OpEvent(nr)])) else None
    case Leave => if s.main.MLoop? then Some(s.(main := MJoin, stop := true)) else None
    case Join => if s.main.MJoin? && s.tele.TDone? then Some(s.(main := MEnd)) else None
    case Finish =>
      if s.main.MEnd? then Some(s.(main := MOom, db := End(s.db, s.exec), log := s.log + [OpEnd])) else None
    case Oom(killed) =>
      if !s.main.MOom? then None
      else if killed then Some(s.(main := MSummary, db := AddEvent(s.db, s.exec, 0), log := s.log + [OpOom]))
      else Some(s.(main := MSummary))
    case Tele(mem, cpu) =>
      (match s.tele
       case TCheck => Some(s.(tele := if s.stop then TDone else TSample))
       case TSample =>
         Some(s.(tele := TCheck, db := AddSample(s.db, s.exec, mem, cpu), log := s.log + [OpSample(mem, cpu)]))
       case _ => None)
    case OtherStart => Some(s.(db := Start(s.db).0))
    case OtherEnd(x) => if x != s.exec then Some(s.(db := End(s.db, x))) else None
    case OtherEvent(x, nr) => if x != s.exec && HasExec(s.db, x) then Some(s.(db := AddEvent(s.db, x, nr))) else None
    case OtherSample(x, m, c) =>
      if x != s.exec && HasExec(s.db, x) then Some(s.(db := AddSample(s.db, x, m, c))) else None
  }

  /** The steps of the threads are the calls of the code: performed on the log, each leaves the database
      that the step says. */
  method Perform(audit: AuditDb, s: State, a: Act)
    requires audit.db == s.db && Next(s, a).Some?
    modifies audit
    ensures audit.db == Next(s, a).value.db
  {
    match a
    case Begin => var id := audit.RecordExecutionStart();
    case Record(nr) => audit.RecordSyscallEvent(s.exec, nr);
    case Finish => audit.RecordExecutionEnd(s.exec);
    case Oom(killed) => if killed { audit.RecordSyscallEvent(s.exec, 0); }
    case Tele(mem, cpu) => if s.tele.TSample? { audit.RecordResourceSample(s.exec, mem, cpu); }
    case OtherStart => var id := audit.RecordExecutionStart();
    case OtherEnd(x) => audit.RecordExecutionEnd(x);
    case OtherEvent(x, nr) => audit.RecordSyscallEvent(x, nr);
    case OtherSample(x, m, c) => audit.RecordResourceSample(x, m, c);
    case _ =>
  }

  /** A schedule from a database left by earlier runs. */
  function Run(db: Db, acts: seq<Act>): Option<State> {
    if acts == [] then Some(State(MStart, TIdle, false, 0, db, [])) else
    match Run(db, acts[..|acts| - 1])
    case None => None
    case Some(s) => Next(s, acts[|acts| - 1])
  }

  // ---------- what holds under every schedule ----------

  /** Every event and sample belongs to an execution that exists. */
  ghost predicate Referential(db: Db) {
    && (forall e | e in db.events :: HasExec(db, e.exec))
    && (forall s | s in db.samples :: HasExec(db, s.exec))
  }

  predicate Busy(op: Op) { op.OpEvent? || op.OpSample? }

  /** The log of a run: the start, events and samples, the end, and at most one row behind it. */
  predicate Phases(s: State) {
    match s.main
    case MStart => s.log == []
    case MLoop => Opened(s.log)
    case MJoin => Opened(s.log)
    case MEnd => Opened(s.log)
    case MOom => Closed(s.log)
    case MSummary => Closed(s.log) || (s.log != [] && s.log[|s.log| - 1] == OpOom && Closed(s.log[..|s.log| - 1]))
  }

  predicate Opened(log: seq<Op>) { log != [] && log[0] == OpStart && forall i :: 0 < i < |log| ==> Busy(log[i]) }

  predicate Closed(log: seq<Op>) { log != [] && log[|log| - 1] == OpEnd && Opened(log[..|log| - 1]) }

  /** The sample this run logged last. */
  function LastLogged(log: seq<Op>): Option<(nat, nat)> {
    if log == [] then None else
    match log[|log| - 1]
    case OpSample(m, c) => Some((m, c))
    case _ => LastLogged(log[..|log| - 1])
  }

  /** The numbers in the event rows of an execution, in order. */
  function CallsOf(events: seq<EventRow>, exec: int): seq<int> {
    if events == [] then [] else
    var e := events[|events| - 1];
    CallsOf(events[..|events| - 1], exec) + (if e.exec == exec then [e.nr] else [])
  }

  /** The readings in the sample rows of an execution, in order. */
  function ReadingsOf(samples: seq<SampleRow>, exec: int): seq<(nat, nat)> {
    if samples == [] then [] else
    var r := samples[|samples| - 1];
    ReadingsOf(samples[..|samples| - 1], exec) + (if r.exec == exec then [(r.mem, r.cpu)] else [])
  }

  /** The numbers that a run has recorded; the OOM row has number 0. */
  function LoggedCalls(log: seq<Op>): seq<int> {
    if log == [] then [] else
    LoggedCalls(log[..|log| - 1]) + match log[|log| - 1] case OpEvent(nr) => [nr] case OpOom => [0] case _ => []
  }

  function LoggedReadings(log: seq<Op>): seq<(nat, nat)> {
    if log == [] then [] else
    LoggedReadings(log[..|log| - 1]) + match log[|log| - 1] case OpSample(m, c) => [(m, c)] case _ => []
  }

  /** The rows of the run's execution are what the run has written: no row more, none less. */
  ghost predicate Recorded(s: State) {
    !s.main.MStart? ==>
      && CallsOf(s.db.events, s.exec) == LoggedCalls(s.log)
      && ReadingsOf(s.db.samples, s.exec) == LoggedReadings(s.log)
      && forall e | e in s.db.execs && e.id == s.exec :: e.ended <==> OpEnd in s.log
  }

  ghost predicate Valid(db: Db) { Ordered(db) && Referential(db) }

  ghost predicate Inv(s: State) {
    && Valid(s.db)
    && Phases(s)
    && (s.main.MStart? <==> s.tele.TIdle?)
    && (!s.main.MStart? ==> HasExec(s.db, s.exec))
    && (s.main.MStart? ==> s.exec == 0)
    && (s.main.MEnd? || s.main.MOom? || s.main.MSummary? ==> s.tele.TDone?)
    && (!s.main.MStart? ==> IsLastSample(s.db.samples, s.exec, LastLogged(s.log)))
    && (s.main.MOom? || s.main.MSummary? ==> Exec(s.exec, true) in s.db.execs)
  }

  lemma StartKeeps(db: Db)
    requires Valid(db)
    ensures var (after, id) := Start(db);
      Valid(after) && HasExec(after, id) && !HasExec(db, id) &&
      (forall s | s in after.samples :: s.exec != id) && (forall x :: HasExec(db, x) ==> HasExec(after, x))
  {
    var (after, id) := Start(db);
    assert after.execs[|db.execs|].id == id;
    forall x | HasExec(db, x) ensures HasExec(after, x) {
      var i :| 0 <= i < |db.execs| && db.execs[i].id == x;
      assert after.execs[i] == db.execs[i];
    }
  }

  lemma EndKeeps(db: Db, exec: int)
    requires Valid(db)
    ensures Valid(End(db, exec)) && forall x :: HasExec(db, x) <==> HasExec(End(db, exec), x)
    ensures HasExec(db, exec) ==> Exec(exec, true) in End(db, exec).execs
    ensures forall e | e in db.execs && e.ended :: e in End(db, exec).execs
  {
    var after := End(db, exec);
    forall x ensures HasExec(db, x) <==> HasExec(after, x) {
      if i :| 0 <= i < |db.execs| && db.execs[i].id == x { assert after.execs[i].id == x; }
      if i :| 0 <= i < |db.execs| && after.execs[i].id == x { assert db.execs[i].id == x; }
    }
    if HasExec(db, exec) {
      var i :| 0 <= i < |db.execs| && db.execs[i].id == exec;
      assert after.execs[i] == Exec(exec, true);
    }
    forall e | e in db.execs && e.ended ensures e in after.execs {
      var i :| 0 <= i < |db.execs| && db.execs[i] == e;
      assert after.execs[i] == e;
    }
  }

  lemma EventKeeps(db: Db, exec: int, nr: int)
    requires Valid(db) && HasExec(db, exec)
    ensures Valid(AddEvent(db, exec, nr)) && forall x :: HasExec(db, x) <==> HasExec(AddEvent(db, exec, nr), x)
    ensures var events := AddEvent(db, exec, nr).events;
      exists e :: e in events && e.exec == exec && e.nr == nr && NewestEvent(events, e)
  {
    var after := AddEvent(db, exec, nr);
    assert NewestEvent(after.events, after.events[|db.events|]);
  }

  lemma SampleKeeps(db: Db, exec: int, mem: nat, cpu: nat)
    requires Valid(db) && HasExec(db, exec)
    ensures var after := AddSample(db, exec, mem, cpu);
      Valid(after) && (forall x :: HasExec(db, x) <==> HasExec(after, x)) &&
      IsLastSample(after.samples, exec, Some((mem, cpu))) &&
      forall x, r :: x != exec && IsLastSample(db.samples, x, r) ==> IsLastSample(after.samples, x, r)
  {
    var after := AddSample(db, exec, mem, cpu);
    var row := SampleRow(db.lastSample + 1, exec, mem, cpu);
    assert after.samples[|db.samples|] == row;
    assert Newest(after.samples, exec, row.id);
    forall x, r | x != exec && IsLastSample(db.samples, x, r) ensures IsLastSample(after.samples, x, r) {
      if r.Some? {
        var s :| s in db.samples && s.exec == x && (s.mem, s.cpu) == r.value && Newest(db.samples, x, s.id);
        assert s in after.samples && Newest(after.samples, x, s.id);
      }
    }
  }

  /** Appending to the log. */
  lemma LogGrows(log: seq<Op>, op: Op)
    ensures (log + [op])[..|log|] == log
    ensures Opened(log) && Busy(op) ==> Opened(log + [op])
    ensures LastLogged(log + [op]) == if op.OpSample? then Some((op.mem, op.cpu)) else LastLogged(log)
  {
  }

  lemma MainKeeps(s: State, a: Act)
    requires Inv(s) && Next(s, a).Some? && !a.Tele? && !a.Begin?
    requires a.Record? || a.Leave? || a.Join? || a.Finish? || a.Oom?
    ensures Inv(Next(s, a).value)
  {
    hide Valid, HasExec, IsLastSample;
    match a
    case Record(nr) => EventKeeps(s.db, s.exec, nr); LogGrows(s.log, OpEvent(nr));
    case Finish => EndKeeps(s.db, s.exec); LogGrows(s.log, OpEnd);
    case Oom(_) => EventKeeps(s.db, s.exec, 0); LogGrows(s.log, OpOom);
    case _ =>
  }

  lemma TeleKeeps(s: State, a: Act)
    requires Inv(s) && Next(s, a).Some? && a.Tele?
    ensures Inv(Next(s, a).value)
  {
    hide Valid, HasExec, IsLastSample;
    if s.tele.TSample? {
      SampleKeeps(s.db, s.exec, a.mem, a.cpu);
      LogGrows(s.log, OpSample(a.mem, a.cpu));
    }
  }

  lemma BeginKeeps(s: State)
    requires Inv(s) && Next(s, Begin).Some?
    ensures Inv(Next(s, Begin).value)
  {
    StartKeeps(s.db);
    assert LastLogged([OpStart]) == None;
    hide Valid, HasExec;
  }

  lemma OtherKeeps(s: State, a: Act)
    requires Inv(s) && Next(s, a).Some? && (a.OtherStart? || a.OtherEnd? || a.OtherEvent? || a.OtherSample?)
    ensures Inv(Next(s, a).value)
  {
    hide Valid, HasExec, IsLastSample;
    match a
    case OtherStart => StartKeeps(s.db);
    case OtherEnd(x) => EndKeeps(s.db, x);
    case OtherEvent(x, nr) => EventKeeps(s.db, x, nr);
    case OtherSample(x, m, c) => SampleKeeps(s.db, x, m, c);
  }

  lemma {:induction false} RunKeeps(db: Db, acts: seq<Act>)
    requires Valid(db) && Run(db, acts).Some?
    ensures Inv(Run(db, acts).value)
  {
    if acts == [] {
    } else {
      hide Inv, Next;
      var n := |acts| - 1;
      RunKeeps(db, acts[..n]);
      var s := Run(db, acts[..n]).value;
      match acts[n]
      case Begin => BeginKeeps(s);
      case Tele(_, _) => TeleKeeps(s, acts[n]);
      case OtherStart => OtherKeeps(s, acts[n]);
      case OtherEnd(_) => OtherKeeps(s, acts[n]);
      case OtherEvent(_, _) => OtherKeeps(s, acts[n]);
      case OtherSample(_, _, _) => OtherKeeps(s, acts[n]);
      case _ => MainKeeps(s, acts[n]);
    }
  }

  lemma OneMore(events: seq<EventRow>, e: EventRow, samples: seq<SampleRow>, r: SampleRow, exec: int)
    ensures CallsOf(events + [e], exec) == CallsOf(events, exec) + (if e.exec == exec then [e.nr] else [])
    ensures ReadingsOf(samples + [r], exec) ==
      ReadingsOf(samples, exec) + (if r.exec == exec then [(r.mem, r.cpu)] else [])
  {
    assert (events + [e])[..|events|] == events && (samples + [r])[..|samples|] == samples;
  }

  lemma OneLogged(log: seq<Op>, op: Op)
    ensures LoggedCalls(log + [op]) ==
      LoggedCalls(log) + match op case OpEvent(nr) => [nr] case OpOom => [0] case _ => []
    ensures LoggedReadings(log + [op]) == LoggedReadings(log) + match op case OpSample(m, c) => [(m, c)] case _ => []
    ensures OpEnd in log + [op] <==> OpEnd in log || op == OpEnd
  {
    assert (log + [op])[..|log|] == log;
  }

  /** Nothing is recorded for an execution that nothing refers to. */
  lemma {:induction false} NothingOf(events: seq<EventRow>, samples: seq<SampleRow>, exec: int)
    requires forall e | e in events :: e.exec != exec
    requires forall r | r in samples :: r.exec != exec
    ensures CallsOf(events, exec) == [] && ReadingsOf(samples, exec) == []
    decreases |events| + |samples|
  {
    if events == [] && samples == [] {
    } else if events == [] {
      NothingOf(events, samples[..|samples| - 1], exec);
      assert samples[|samples| - 1] in samples;
    } else {
      NothingOf(events[..|events| - 1], samples, exec);
      assert events[|events| - 1] in events;
    }
  }

  lemma RecordsStart(s: State)
    requires Inv(s) && s.main.MStart?
    ensures Recorded(Next(s, Begin).value)
  {
    var t := Next(s, Begin).value;
    StartKeeps(s.db);
    forall e | e in s.db.events ensures e.exec != t.exec { assert HasExec(s.db, e.exec); }
    NothingOf(s.db.events, s.db.samples, t.exec);
    assert LoggedCalls([OpStart]) == [] && LoggedReadings([OpStart]) == [];
    NoRow(s.db, t.exec);
  }

  lemma NoRow(db: Db, exec: int)
    requires !HasExec(db, exec)
    ensures forall e | e in db.execs :: e.id != exec
  {
    forall i | 0 <= i < |db.execs| ensures db.execs[i].id != exec {}
  }

  lemma RecordsStep(s: State, a: Act)
    requires Inv(s) && Recorded(s) && Next(s, a).Some? && !a.Begin?
    ensures Recorded(Next(s, a).value)
  {
    hide Ordered, Referential, Phases, IsLastSample, LastLogged, CallsOf, ReadingsOf, LoggedCalls, LoggedReadings;
    var t := Next(s, a).value;
    if |t.db.events| > |s.db.events| {
      OneMore(s.db.events, t.db.events[|s.db.events|], s.db.samples, SampleRow(0, 0, 0, 0), s.exec);
    }
    if |t.db.samples| > |s.db.samples| {
      OneMore(s.db.events, EventRow(0, 0, 0), s.db.samples, t.db.samples[|s.db.samples|], s.exec);
    }
    if |t.log| > |s.log| { OneLogged(s.log, t.log[|s.log|]); }
    if a.Finish? || a.OtherEnd? { EndedRows(s.db, if a.Finish? then s.exec else a.exec); }
    if a.OtherStart? && !s.main.MStart? { NewRow(s.db, s.exec); }
  }

  lemma EndedRows(db: Db, exec: int)
    ensures forall e | e in End(db, exec).execs ::
      if e.id == exec then e.ended else e in db.execs
  {
    forall e | e in End(db, exec).execs ensures if e.id == exec then e.ended else e in db.execs {
      var i :| 0 <= i < |db.execs| && End(db, exec).execs[i] == e;
      assert db.execs[i] in db.execs;
    }
  }

  lemma NewRow(db: Db, exec: int)
    requires Ordered(db) && HasExec(db, exec)
    ensures forall e | e in Start(db).0.execs && e.id == exec :: e in db.execs
  {
    var i :| 0 <= i < |db.execs| && db.execs[i].id == exec;
  }

  lemma {:induction false} RunRecords(db: Db, acts: seq<Act>)
    requires Valid(db) && Run(db, acts).Some?
    ensures Recorded(Run(db, acts).value)
  {
    if acts == [] {
    } else {
      hide Inv, Next, Recorded;
      var n := |acts| - 1;
      RunRecords(db, acts[..n]);
      RunKeeps(db, acts[..n]);
      var s := Run(db, acts[..n]).value;
      if acts[n].Begin? { BeginAtStart(s); RecordsStart(s); } else { RecordsStep(s, acts[n]); }
    }
  }

  lemma BeginAtStart(s: State)
    requires Next(s, Begin).Some?
    ensures s.main.MStart?
  {
  }

  /** How many samples the telemetry thread still writes once it has been told to stop. */
  function Outstanding(s: State): nat { if s.tele.TSample? then 1 else 0 }

  predicate Stopping(s: State) { s.stop && !s.main.MStart? && !s.main.MLoop? }

  lemma StoppingStep(s: State, a: Act)
    requires Stopping(s) && Next(s, a).Some?
    ensures var t := Next(s, a).value;
      Stopping(t) && |LoggedReadings(t.log)| + Outstanding(t) <= |LoggedReadings(s.log)| + Outstanding(s)
  {
    hide LoggedReadings, LoggedCalls, Start, End, AddEvent, AddSample, HasExec;
    var t := Next(s, a).value;
    if |t.log| > |s.log| { OneLogged(s.log, t.log[|s.log|]); }
  }

  /** Once the loop has been left at most one sample follows, whatever the schedule. */
  lemma {:induction false} OneSampleMore(db: Db, acts: seq<Act>, more: seq<Act>)
    requires Run(db, acts + more).Some? && Run(db, acts).Some? && Run(db, acts).value.main.MJoin?
    ensures var s, t := Run(db, acts).value, Run(db, acts + more).value;
      Stopping(t) && |LoggedReadings(t.log)| + Outstanding(t) <= |LoggedReadings(s.log)| + Outstanding(s)
  {
    if more == [] {
      assert acts + more == acts;
      FlagIsSet(db, acts);
    } else {
      var n := |more| - 1;
      assert (acts + more)[..|acts + more| - 1] == acts + more[..n];
      OneSampleMore(db, acts, more[..n]);
      StoppingStep(Run(db, acts + more[..n]).value, more[n]);
    }
  }

  lemma {:induction false} FlagIsSet(db: Db, acts: seq<Act>)
    requires Run(db, acts).Some?
    ensures var s := Run(db, acts).value; s.main.MStart? || s.main.MLoop? || s.stop
  {
    if acts == [] {
    } else {
      hide Start, End, AddEvent, AddSample, HasExec;
      FlagIsSet(db, acts[..|acts| - 1]);
    }
  }

  /** And the run can always be brought to its end from there. */
  lemma EndsAfterLeave(db: Db, acts: seq<Act>) returns (more: seq<Act>)
    requires Valid(db) && Run(db, acts).Some? && Run(db, acts).value.main.MJoin?
    ensures Run(db, acts + more).Some? && Run(db, acts + more).value.main.MSummary?
  {
    hide Start, End, AddEvent, AddSample, Inv, Valid;
    FlagIsSet(db, acts);
    RunKeeps(db, acts);
    var s := Run(db, acts).value;
    TeleStarted(s);
    more := [];
    assert acts + more == acts;
    if s.tele.TSample? { more := Extended(db, acts, more, Tele(0, 0)); }
    if !s.tele.TDone? { more := Extended(db, acts, more, Tele(0, 0)); }
    more := Extended(db, acts, more, Join);
    more := Extended(db, acts, more, Finish);
    more := Extended(db, acts, more, Oom(false));
  }

  lemma TeleStarted(s: State)
    requires Inv(s) && s.main.MJoin?
    ensures !s.tele.TIdle?
  {
  }

  lemma Extended(db: Db, acts: seq<Act>, more: seq<Act>, a: Act) returns (longer: seq<Act>)
    requires Run(db, acts + more).Some? && Next(Run(db, acts + more).value, a).Some?
    ensures longer == more + [a] && Run(db, acts + longer) == Next(Run(db, acts + more).value, a)
  {
    longer := more + [a];
    assert (acts + longer)[..|acts + longer| - 1] == acts + more;
  }

  /** Audit safety, under every schedule of the two threads and of other monitors on the same file:
      every row belongs to an existing execution; the run's own writes are the start, then events and
      samples, then one end update, then at most the OOM row; the rows of its execution are exactly what
      it wrote, in order; and behind the end `get_last_sample` finds the sample that was inserted last. */
  lemma AuditSafety(db: Db, acts: seq<Act>)
    requires Valid(db) && Run(db, acts).Some?
    ensures var s := Run(db, acts).value;
      && Referential(s.db)
      && Phases(s)
      && Recorded(s)
      && (s.main.MOom? || s.main.MSummary? ==>
            Exec(s.exec, true) in s.db.execs && IsLastSample(s.db.samples, s.exec, LastLogged(s.log)))
  {
    RunKeeps(db, acts);
    RunRecords(db, acts);
  }

  /** The last sample of an execution is unique, so `get_last_sample` has one answer. */
  lemma LastSampleUnique(db: Db, exec: int, r: Option<(nat, nat)>, r': Option<(nat, nat)>)
    requires Ordered(db) && IsLastSample(db.samples, exec, r) && IsLastSample(db.samples, exec, r')
    ensures r == r'
  {
    if r.Some? && r'.Some? {
      var s :| s in db.samples && s.exec == exec && (s.mem, s.cpu) == r.value && Newest(db.samples, exec, s.id);
      var t :| t in db.samples && t.exec == exec && (t.mem, t.cpu) == r'.value && Newest(db.samples, exec, t.id);
      var i :| 0 <= i < |db.samples| && db.samples[i] == s;
      var j :| 0 <= j < |db.samples| && db.samples[j] == t;
    }
  }
}
