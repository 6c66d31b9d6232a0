/** main.rs: the loop that takes seccomp notifications, records them and answers them. */
module EventLoop {
  import opened Profile
  import opened Pipeline
  import opened Wrappers

  datatype Notif = Notif(id: int, pid: int, nr: int)

  /** What one round of the loop meets: the outcome of `poll`, and of `recv` when there is input. */
  datatype Poll =
    | Interrupted        // EINTR
    | Broken             // any other error
    | Timeout
    | HungUp             // woken without input
    | Readable(recv: Option<Notif>)

  /** What the loop does to the world, in order. Inserts and sends count when attempted. */
  datatype Effect =
    | Received(n: Notif)
    | Audited(n: Notif, action: Action)
    | Replied(id: int, resp: Response)
    | Killed(pid: int)

  function ActionFor(doc: ProfileDoc, n: Notif): (Action, int) { MonitorLookup(doc, SyscallName(n.nr)) }

  // ---------- the discipline, stated on the trace ----------

  /** The effects that start at `i` handle `n` completely: audit row, one reply with its id and the
      answer the policy gives, and the kill if that is the action. */
  ghost predicate Handles(trace: seq<Effect>, i: nat, doc: ProfileDoc, n: Notif) {
    var (a, e) := ActionFor(doc, n);
    && i + 2 < |trace|
    && trace[i] == Received(n)
    && trace[i + 1] == Audited(n, a)
    && trace[i + 2] == Replied(n.id, Answer(a, e))
    && (a.Kill? <==> i + 3 < |trace| && trace[i + 3].Killed?)
    && (a.Kill? ==> trace[i + 3] == Killed(n.pid))
  }

  /** Every notification is handled completely where it is received, and every other effect belongs
      to such a handling. */
  ghost predicate Disciplined(trace: seq<Effect>, doc: ProfileDoc) {
    && (forall i :: 0 <= i < |trace| && trace[i].Received? ==> Handles(trace, i, doc, trace[i].n))
    && (forall i :: 0 <= i < |trace| && trace[i].Audited? ==> 1 <= i && trace[i - 1] == Received(trace[i].n))
    && (forall i :: 0 <= i < |trace| && trace[i].Replied? ==>
          2 <= i && trace[i - 2].Received? && trace[i - 2].n.id == trace[i].id)
    && (forall i :: 0 <= i < |trace| && trace[i].Killed? ==>
          3 <= i && trace[i - 3].Received? && trace[i - 3].n.pid == trace[i].pid &&
          trace[i - 1].Replied? && trace[i - 1].resp == Response(-1, -EPERM, false))
  }

  /** The notifications taken from the kernel, in order. */
  function Taken(trace: seq<Effect>): seq<Notif> {
    if trace == [] then [] else
    var n := |trace| - 1;
    Taken(trace[..n]) + (if trace[n].Received? then [trace[n].n] else [])
  }

  /** The notifications that the rounds of a run deliver before one of them ends the loop. */
  function Delivered(script: seq<Poll>): seq<Notif> {
    if script == [] then [] else
    match script[0]
    case Interrupted => Delivered(script[1..])
    case Timeout => Delivered(script[1..])
    case Readable(Some(n)) => [n] + Delivered(script[1..])
    case _ => []
  }

  /** A round that ends the loop: `poll` fails, wakes it without input, or the notification is gone. */
  predicate Ends(p: Poll) { p == Broken || p == HungUp || p == Readable(None) }

  /** All notifications of these rounds, in order. */
  function Offered(script: seq<Poll>): seq<Notif> {
    if script == [] then [] else
    var p := script[|script| - 1];
    Offered(script[..|script| - 1]) + (if p.Readable? && p.recv.Some? then [p.recv.value] else [])
  }

  /** Interrupts and timeouts end nothing: delivered are all notifications in front of the first round
      that ends the loop. */
  lemma {:induction false} DeliveredExactly(script: seq<Poll>) returns (k: nat)
    ensures k <= |script| && forall j :: 0 <= j < k ==> !Ends(script[j])
    ensures k < |script| ==> Ends(script[k])
    ensures Delivered(script) == Offered(script[..k])
  {
    if script == [] || Ends(script[0]) { return 0; }
    k := DeliveredExactly(script[1..]);
    assert forall j :: 0 < j < |script| ==> script[j] == script[1..][j - 1];
    assert script[..k + 1] == [script[0]] + script[1..][..k];
    OfferedFront(script[0], script[1..][..k]);
    k := k + 1;
  }

  lemma {:induction false} OfferedFront(p: Poll, rest: seq<Poll>)
    ensures Offered([p] + rest) == (if p.Readable? && p.recv.Some? then [p.recv.value] else []) + Offered(rest)
    decreases rest
  {
    if rest == [] {
      assert ([p] + rest)[..0] == [];
    } else {
      var n := |rest| - 1;
      assert ([p] + rest)[..n + 1] == [p] + rest[..n];
      OfferedFront(p, rest[..n]);
    }
  }

  /** The handling of one notification. */
  function Block(doc: ProfileDoc, n: Notif): seq<Effect> {
    var (a, e) := ActionFor(doc, n);
    [Received(n), Audited(n, a), Replied(n.id, Answer(a, e))] + (if a.Kill? then [Killed(n.pid)] else [])
  }

  lemma BlockKeeps(trace: seq<Effect>, doc: ProfileDoc, n: Notif)
    requires Disciplined(trace, doc)
    ensures Disciplined(trace + Block(doc, n), doc)
  {
    hide Answer, ActionFor;
    var more := trace + Block(doc, n);
    assert Handles(more, |trace|, doc, n);
    forall i | 0 <= i < |trace| && trace[i].Received? ensures Handles(more, i, doc, more[i].n) {
      assert Handles(trace, i, doc, trace[i].n);
      assert i + 3 == |trace| ==> more[i + 3] == Received(n);
    }
    assert ActionFor(doc, n).0.Kill? ==>
      Answer(ActionFor(doc, n).0, ActionFor(doc, n).1) == Response(-1, -EPERM, false)
    by {
      KillAnswer(ActionFor(doc, n).1);
    }
  }

  lemma KillAnswer(e: int)
    ensures Answer(Kill, e) == Response(-1, -EPERM, false)
  {
  }

  lemma BlockTaken(trace: seq<Effect>, doc: ProfileDoc, n: Notif)
    ensures Taken(trace + Block(doc, n)) == Taken(trace) + [n]
  {
    hide Answer, ActionFor;
    var (a, e) := ActionFor(doc, n);
    var t1 := trace + [Received(n)];
    var t2 := t1 + [Audited(n, a)];
    var t3 := t2 + [Replied(n.id, Answer(a, e))];
    assert t1[..|trace|] == trace && t2[..|t1|] == t1 && t3[..|t2|] == t2;
    assert Taken(t1) == Taken(trace) + [n];
    assert Taken(t2) == Taken(t1) && Taken(t3) == Taken(t2);
    if a.Kill? {
      var t4 := t3 + [Killed(n.pid)];
      assert t4[..|t3|] == t3 && t4 == trace + Block(doc, n);
    } else {
      assert t3 == trace + Block(doc, n);
    }
  }

  /** The body of the event loop behind `recv`. */
  method Handle(policy: Policy, before: seq<Effect>, notif: Notif, ghost doc: ProfileDoc) returns (trace: seq<Effect>)
    requires (forall name :: policy.Find(name) == MonitorLookup(doc, name)) && Disciplined(before, doc)
    ensures Disciplined(trace, doc) && Taken(trace) == Taken(before) + [notif]
  {
    hide Disciplined, Taken, SyscallName, MonitorLookup;
    trace := before + [Received(notif)];
    var sysname := SyscallName(notif.nr);
    var (action, errno) := policy.Find(sysname);
    trace := trace + [Audited(notif, action)];
    match action {
      case Allow => trace := trace + [Replied(notif.id, Response(0, 0, true))];
      case Errno => trace := trace + [Replied(notif.id, Response(-1, -errno, false))];
      case Notify => trace := trace + [Replied(notif.id, Response(-1, -EPERM, false))];
      case Kill =>
        trace := trace + [Replied(notif.id, Response(-1, -EPERM, false))];
        trace := trace + [Killed(notif.pid)];
    }
    Handled(before, trace, doc, notif, action, errno);
  }

  /** The event loop over the rounds of a run. `policy` holds what was loaded from `doc`. */
  method Loop(policy: Policy, script: seq<Poll>, ghost doc: ProfileDoc) returns (trace: seq<Effect>)
    requires forall name :: policy.Find(name) == MonitorLookup(doc, name)
    ensures Disciplined(trace, doc)
    ensures Taken(trace) == Delivered(script)
  {
    NothingDone(doc);
    hide Disciplined, Taken, SyscallName, MonitorLookup, Offered;
    trace := [];
    var round := 0;
    while round < |script|
      invariant 0 <= round <= |script|
      invariant Disciplined(trace, doc)
      invariant Taken(trace) + Delivered(script[round..]) == Delivered(script)
    {
      assert script[round..][0] == script[round] && script[round..][1..] == script[round + 1..];
      match script[round] {
        case Interrupted => round := round + 1; continue;
        case Timeout => round := round + 1; continue;
        case Broken => break;
        case HungUp => break;
        case Readable(recv) =>
          if recv.None? { break; }
          trace := Handle(policy, trace, recv.value, doc);
          round := round + 1;
      }
    }
    if round == |script| { assert script[round..] == []; }
  }

  lemma NothingDone(doc: ProfileDoc)
    ensures Disciplined([], doc) && Taken([]) == []
  {
  }

  /** What the body of the loop has appended is one complete handling. */
  lemma Handled(before: seq<Effect>, after: seq<Effect>, doc: ProfileDoc, n: Notif, a: Action, e: int)
    requires Disciplined(before, doc) && ActionFor(doc, n) == (a, e)
    requires var replied := before + [Received(n)] + [Audited(n, a)] + [Replied(n.id, Answer(a, e))];
      after == if a.Kill? then replied + [Killed(n.pid)] else replied
    ensures Disciplined(after, doc) && Taken(after) == Taken(before) + [n]
  {
    hide Disciplined, Answer, ActionFor;
    assert after == before + Block(doc, n);
    BlockKeeps(before, doc, n);
    BlockTaken(before, doc, n);
  }

  // ---------- in flight ----------

  /** Notifications received but not yet replied to. */
  function InFlight(trace: seq<Effect>): int {
    if trace == [] then 0 else
    var e := trace[|trace| - 1];
    InFlight(trace[..|trace| - 1]) + (if e.Received? then 1 else if e.Replied? then -1 else 0)
  }

  /** What follows a notification. */
  lemma InOrder(trace: seq<Effect>, doc: ProfileDoc, i: nat)
    requires Disciplined(trace, doc) && i < |trace| && trace[i].Received?
    ensures i + 2 < |trace| && trace[i + 1].Audited? && trace[i + 2].Replied?
  {
    assert Handles(trace, i, doc, trace[i].n);
  }

  /** At most one notification is in flight at any time, and none when the loop ends. */
  lemma {:induction false} OneInFlight(trace: seq<Effect>, doc: ProfileDoc, k: nat)
    requires Disciplined(trace, doc) && k <= |trace|
    ensures 0 <= InFlight(trace[..k]) <= 1
    ensures InFlight(trace[..k]) == 1 <==>
      (k >= 1 && trace[k - 1].Received?) || (k >= 2 && trace[k - 2].Received?)
    ensures k == |trace| ==> InFlight(trace) == 0
  {
    hide Handles;
    if k == 0 {
    } else {
      OneInFlight(trace, doc, k - 1);
      assert trace[..k][..k - 1] == trace[..k - 1];
      if k >= 2 && trace[k - 2].Received? { InOrder(trace, doc, k - 2); }
      if k >= 3 && trace[k - 3].Received? { InOrder(trace, doc, k - 3); }
      if trace[k - 1].Received? { InOrder(trace, doc, k - 1); }
    }
    if k == |trace| { assert trace[..k] == trace; }
  }
}
