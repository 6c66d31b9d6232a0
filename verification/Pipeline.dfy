/** The policy pipeline: one profile is compiled into a kernel filter (profile.c, seccomp.c) and
    read again, by name, by the monitor that answers what the filter passes on (policy.rs,
    seccomp.rs, main.rs). Together they mean what a lookup in the profile means. */
module Pipeline {
  import opened Decimal
  import opened JsonSpec
  import opened Profile
  import opened Filter
  import opened Wrappers

  // ---------- the monitor's side ----------

  /** A rule as a reader decodes it; a missing errno is EPERM. */
  datatype RuleDoc = RuleDoc(name: string, action: Action, errno: Option<int>)

  datatype ProfileDoc = ProfileDoc(default: Action, rules: seq<RuleDoc>)

  function ErrnoOf(r: RuleDoc): int {
    match r.errno case Some(e) => e case None => 1
  }

  /** The last rule for a name decides. */
  function LastRule(rules: seq<RuleDoc>, name: string): Option<(Action, int)> {
    if rules == [] then None else
    var r := rules[|rules| - 1];
    if r.name == name then Some((r.action, ErrnoOf(r))) else LastRule(rules[..|rules| - 1], name)
  }

  class Policy {
    var default: Action
    var byName: map<string, (Action, int)>

    /** `Policy::load`, from the decoded profile. */
    constructor (doc: ProfileDoc)
      ensures forall n :: Find(n) == MonitorLookup(doc, n)
    {
      default, byName := doc.default, map[];
      new;
      var rules := doc.rules;
      for i := 0 to |rules|
        invariant default == doc.default
        invariant forall n :: n in byName <==> LastRule(rules[..i], n).Some?
        invariant forall n | n in byName :: LastRule(rules[..i], n) == Some(byName[n])
      {
        assert rules[..i + 1][..i] == rules[..i];
        byName := byName[rules[i].name := (rules[i].action, ErrnoOf(rules[i]))];
      }
      assert rules[..|rules|] == rules;
    }

    /** `Policy::lookup` */
    function Find(name: string): (Action, int)
      reads this
    {
      if name in byName then byName[name] else (default, EPERM)
    }
  }

  /** What `Policy::lookup` answers, as a function of the profile. */
  function MonitorLookup(doc: ProfileDoc, name: string): (Action, int) {
    match LastRule(doc.rules, name) case Some(x) => x case None => (doc.default, EPERM)
  }

  const UNKNOWN: string := "syscall_unknown"

  /** `syscall_name` */
  function SyscallName(nr: int): string {
    match nr
    case 41 => "socket"
    case 42 => "connect"
    case 43 => "accept"
    case 44 => "sendto"
    case 45 => "recvfrom"
    case 46 => "sendmsg"
    case 47 => "recvmsg"
    case 48 => "shutdown"
    case 49 => "bind"
    case 50 => "listen"
    case 51 => "getsockname"
    case 52 => "getpeername"
    case 53 => "socketpair"
    case 101 => "ptrace"
    case 165 => "mount"
    case 166 => "umount2"
    case 272 => "unshare"
    case 308 => "setns"
    case 321 => "bpf"
    case 298 => "perf_event_open"
    case _ => UNKNOWN
  }

  // ---------- the names, by the table of the architecture ----------

  /** libseccomp on x86-64, for the calls that the monitor names. */
  predicate Resolves(libc: Libc) {
    && libc.resolve("socket") == Some(41) && libc.resolve("connect") == Some(42)
    && libc.resolve("accept") == Some(43) && libc.resolve("sendto") == Some(44)
    && libc.resolve("recvfrom") == Some(45) && libc.resolve("sendmsg") == Some(46)
    && libc.resolve("recvmsg") == Some(47) && libc.resolve("shutdown") == Some(48)
    && libc.resolve("bind") == Some(49) && libc.resolve("listen") == Some(50)
    && libc.resolve("getsockname") == Some(51) && libc.resolve("getpeername") == Some(52)
    && libc.resolve("socketpair") == Some(53) && libc.resolve("ptrace") == Some(101)
    && libc.resolve("mount") == Some(165) && libc.resolve("umount2") == Some(166)
    && libc.resolve("unshare") == Some(272) && libc.resolve("setns") == Some(308)
    && libc.resolve("bpf") == Some(321) && libc.resolve("perf_event_open") == Some(298)
  }

  predicate MonitorNames(name: string) {
    name in {
      "socket", "connect", "accept", "sendto", "recvfrom", "sendmsg", "recvmsg", "shutdown", "bind", "listen",
      "getsockname", "getpeername", "socketpair", "ptrace", "mount", "umount2", "unshare", "setns", "bpf",
      "perf_event_open"
    }
  }

  predicate MonitorKnows(nr: int) {
    nr in {41, 42, 43, 44, 45, 46, 47, 48, 49, 50, 51, 52, 53, 101, 165, 166, 272, 308, 321, 298}
  }

  /** The twenty numbers get the names that resolve to them, and all others the unknown name. */
  lemma NamesAsResolved(libc: Libc, nr: int)
    requires Resolves(libc)
    ensures MonitorKnows(nr) ==> MonitorNames(SyscallName(nr)) && libc.resolve(SyscallName(nr)) == Some(nr)
    ensures !MonitorKnows(nr) ==> SyscallName(nr) == "syscall_unknown"
  {
  }

  /** No two of the names have the same number. */
  lemma NamesApart(libc: Libc, a: string, b: string)
    requires Resolves(libc) && MonitorNames(a) && MonitorNames(b) && libc.resolve(a) == libc.resolve(b)
    ensures a == b
  {
  }

  /** `struct seccomp_notif_resp` without its id. */
  datatype Response = Response(val: int, error: int, proceed: bool)

  /** The answer the event loop sends for an action. */
  function Answer(a: Action, errno: int): Response {
    match a
    case Allow => Response(0, 0, true)
    case Errno => Response(-1, -errno, false)
    case Notify => Response(-1, -EPERM, false)
    case Kill => Response(-1, -EPERM, false)
  }

  /** The answers, by the fields of `struct seccomp_notif_resp`. */
  lemma AnswersExactly(a: Action, errno: int)
    ensures var r := Answer(a, errno);
      && (r.proceed <==> a == Allow)
      && r.val == (if a == Allow then 0 else -1)
      && r.error == match a case Allow => 0 case Errno => -errno case Notify => -1 case Kill => -1
  {
  }

  // ---------- what a system call comes to ----------

  /** The call runs; or it returns `-errno` (0 for errno 0) without running; the caller may be
      killed after that. */
  datatype Outcome = Outcome(runs: bool, errno: int, killed: bool)

  const MAX_ERRNO: int := 4095

  /** The kernel's reading of an answer. */
  function Answered(r: Response, killed: bool): Outcome {
    if r.proceed then Outcome(true, 0, killed)
    else Outcome(false, if r.error != 0 then -r.error else -r.val, killed)
  }

  /** What the filter and, where it asks for it, the monitor make of `nr`; and whether an audit row
      is inserted. */
  function Piped(v: Verdict, doc: ProfileDoc, nr: int): (Outcome, bool) {
    match v
    case VAllow => (Outcome(true, 0, false), false)
    case VErrno(e) => (Outcome(false, if e > MAX_ERRNO then MAX_ERRNO else e, false), false)
    case VNotify =>
      var (a, e) := MonitorLookup(doc, SyscallName(nr));
      (Answered(Answer(a, e), a.Kill?), true)
  }

  /** What an action means to the author of a profile. */
  function Meant(a: Action, errno: int): (Outcome, bool) {
    match a
    case Allow => (Outcome(true, 0, false), false)
    case Errno => (Outcome(false, errno, false), false)
    case Notify => (Outcome(false, EPERM, false), true)
    case Kill => (Outcome(false, EPERM, true), true)
  }

  /** The rule of the profile that names the system call `nr`. */
  function Effective(doc: ProfileDoc, libc: Libc, nr: int): (Action, int) {
    EffectiveIn(doc.rules, doc.default, libc, nr)
  }

  function EffectiveIn(rules: seq<RuleDoc>, default: Action, libc: Libc, nr: int): (Action, int) {
    if rules == [] then (default, EPERM)
    else if libc.resolve(rules[0].name) == Some(nr) then (rules[0].action, ErrnoOf(rules[0]))
    else EffectiveIn(rules[1..], default, libc, nr)
  }

  // ---------- what profile.c makes of a file ----------

  /** The rule that profile.c sees in an entry of the list, before it asks for the number. */
  function SeenRule(it: Json, libc: Libc): Option<RuleDoc> {
    var name, act := AsStr(Get(it, "name")), AsStr(Get(it, "action"));
    if name.None? || act.None? then None else
    match ParseAction(act.value)
    case Some(a) => Some(RuleDoc(CString(name.value), a, Some(ToInt32(AsInt(Get(it, "errno"), 1, libc)))))
    case None => None
  }

  lemma SeenAs(it: Json, libc: Libc, name: string, action: Action, errno: int)
    requires AsStr(Get(it, "name")) == Some(name) && AsStr(Get(it, "action")).Some?
    requires ParseAction(AsStr(Get(it, "action")).value) == Some(action)
    requires ToInt32(AsInt(Get(it, "errno"), 1, libc)) == errno
    ensures SeenRule(it, libc) == Some(RuleDoc(CString(name), action, Some(errno)))
  {
    hide Get, AsStr, AsInt, ToInt32, CString, ParseAction;
  }

  function Seen(items: seq<Json>, libc: Libc): seq<RuleDoc> {
    if items == [] then [] else
    (match SeenRule(items[0], libc) case Some(r) => [r] case None => []) + Seen(items[1..], libc)
  }

  /** The list of rules; what is no list counts for an empty one. */
  function ListOf(root: Json): seq<Json> {
    match Get(root, "syscall_rules") case Some(Arr(items)) => items case _ => []
  }

  /** The profile that profile.c sees. */
  function CProfile(root: Json, libc: Libc): ProfileDoc { ProfileDoc(DefaultOf(root), Seen(ListOf(root), libc)) }

  /** The rules whose names libseccomp knows, with their numbers. */
  function Resolved(rules: seq<RuleDoc>, libc: Libc): seq<Rule> {
    if rules == [] then [] else
    var rest := Resolved(rules[1..], libc);
    match libc.resolve(rules[0].name)
    case Some(nr) => [Rule(nr, rules[0].action, ErrnoOf(rules[0]))] + rest
    case None => rest
  }

  /** The table that profile.c ends up with. */
  function TableOf(c: ProfileDoc, libc: Libc): seq<Rule> { Capped(Resolved(c.rules, libc)) }

  /** What profile.c answers for a number. */
  function TableAnswer(c: ProfileDoc, libc: Libc, nr: int): (Action, int) { Lookup(TableOf(c, libc), c.default, nr) }

  lemma RuleOfSeen(it: Json, libc: Libc)
    ensures RuleOf(it, libc) ==
      match SeenRule(it, libc)
      case None => None
      case Some(r) =>
        match libc.resolve(r.name) case Some(nr) => Some(Rule(nr, r.action, ErrnoOf(r))) case None => None
  {
    hide Get, CString, ToInt32;
  }

  /** The loader keeps of a list what it sees there and can resolve. */
  lemma {:induction false} SeenIsLoaded(items: seq<Json>, libc: Libc)
    ensures AllRules(items, libc) == Resolved(Seen(items, libc), libc)
  {
    if items == [] {
    } else {
      hide RuleOf, SeenRule, ErrnoOf;
      RuleOfSeen(items[0], libc);
      SeenIsLoaded(items[1..], libc);
      var rest := Seen(items[1..], libc);
      match SeenRule(items[0], libc)
      case Some(r) => assert ([r] + rest)[0] == r && ([r] + rest)[1..] == rest;
      case None => assert [] + rest == rest;
    }
  }

  // ---------- profiles as they should be ----------

  function Says(r: RuleDoc): (Action, int) { (r.action, ErrnoOf(r)) }

  /** Two readers that see the same: rule by rule the same name, action and errno. */
  predicate Alike(c: ProfileDoc, m: ProfileDoc) {
    && c.default == m.default && |c.rules| == |m.rules|
    && forall i :: 0 <= i < |c.rules| ==> c.rules[i].name == m.rules[i].name && Says(c.rules[i]) == Says(m.rules[i])
  }

  /** A profile the system is meant for: no name twice and no number twice, at most 256 rules,
      errno values the kernel can return. */
  predicate ValidDoc(doc: ProfileDoc, libc: Libc) {
    && |doc.rules| <= SB_MAX_SYSCALLS
    && (forall r | r in doc.rules :: 0 <= ErrnoOf(r) <= MAX_ERRNO)
    && (forall i, j :: 0 <= i < j < |doc.rules| ==> doc.rules[i].name != doc.rules[j].name)
    && (forall i, j :: 0 <= i < j < |doc.rules| && libc.resolve(doc.rules[i].name).Some? ==>
          libc.resolve(doc.rules[i].name) != libc.resolve(doc.rules[j].name))
  }

  /** Uncapped, the table answers like the profile. */
  lemma {:induction false} TableMeansProfile(rules: seq<RuleDoc>, default: Action, libc: Libc, nr: int)
    ensures |Resolved(rules, libc)| <= |rules|
    ensures Lookup(Resolved(rules, libc), default, nr) == EffectiveIn(rules, default, libc, nr)
  {
    if rules == [] {
    } else {
      hide ErrnoOf;
      TableMeansProfile(rules[1..], default, libc, nr);
    }
  }

  /** Every rule of the table comes from a rule of the profile. */
  lemma {:induction false} TableFromProfile(rules: seq<RuleDoc>, libc: Libc, t: Rule)
    requires t in Resolved(rules, libc)
    ensures exists i :: 0 <= i < |rules| && libc.resolve(rules[i].name) == Some(t.nr)
  {
    if libc.resolve(rules[0].name) == Some(t.nr) {
    } else {
      TableFromProfile(rules[1..], libc, t);
      var i :| 0 <= i < |rules[1..]| && libc.resolve(rules[1..][i].name) == Some(t.nr);
      assert rules[i + 1] == rules[1..][i];
    }
  }

  /** No number occurs twice in the table. */
  lemma {:induction false} TableDistinct(rules: seq<RuleDoc>, libc: Libc)
    requires forall i, j :: 0 <= i < j < |rules| && libc.resolve(rules[i].name).Some? ==>
      libc.resolve(rules[i].name) != libc.resolve(rules[j].name)
    ensures DistinctNumbers(Resolved(rules, libc))
  {
    hide ErrnoOf;
    if rules == [] {
    } else {
      TableDistinct(rules[1..], libc);
      forall t | t in Resolved(rules[1..], libc) ensures libc.resolve(rules[0].name) != Some(t.nr) {
        TableFromProfile(rules[1..], libc, t);
        var j :| 0 <= j < |rules[1..]| && libc.resolve(rules[1..][j].name) == Some(t.nr);
        assert rules[1..][j] == rules[j + 1];
      }
    }
  }

  /** The table of a valid profile has no number twice and answers like the profile. */
  lemma ValidTable(c: ProfileDoc, libc: Libc, nr: int)
    requires ValidDoc(c, libc)
    ensures DistinctNumbers(TableOf(c, libc)) && TableAnswer(c, libc, nr) == Effective(c, libc, nr)
    ensures 0 <= Effective(c, libc, nr).1 <= MAX_ERRNO
  {
    TableMeansProfile(c.rules, c.default, libc, nr);
    TableDistinct(c.rules, libc);
    EffectiveErrno(c.rules, c.default, libc, nr);
  }

  lemma {:induction false} AlikeEffective(c: ProfileDoc, m: ProfileDoc, libc: Libc, nr: int)
    requires Alike(c, m)
    ensures Effective(c, libc, nr) == Effective(m, libc, nr)
    decreases |c.rules|
  {
    if c.rules == [] {
    } else {
      AlikeEffective(ProfileDoc(c.default, c.rules[1..]), ProfileDoc(m.default, m.rules[1..]), libc, nr);
    }
  }

  /** A name that resolves to `nr` under distinct rules is looked up alike by number and by name. */
  lemma {:induction false} ByNameByNumber(rules: seq<RuleDoc>, default: Action, libc: Libc, nr: int, name: string)
    requires libc.resolve(name) == Some(nr)
    requires forall r | r in rules && libc.resolve(r.name) == Some(nr) :: r.name == name
    requires forall i, j :: 0 <= i < j < |rules| ==> rules[i].name != rules[j].name
    ensures MonitorLookup(ProfileDoc(default, rules), name) == EffectiveIn(rules, default, libc, nr)
  {
    if i :| 0 <= i < |rules| && rules[i].name == name {
      LastRuleHit(rules, name, i);
      EffectiveHit(rules, default, libc, nr, i);
    } else {
      LastRuleMiss(rules, name);
      EffectiveMiss(rules, default, libc, nr);
    }
  }

  lemma {:induction false} LastRuleHit(rules: seq<RuleDoc>, name: string, i: nat)
    requires i < |rules| && rules[i].name == name
    requires forall j :: i < j < |rules| ==> rules[j].name != name
    ensures LastRule(rules, name) == Some((rules[i].action, ErrnoOf(rules[i])))
  {
    if i == |rules| - 1 {
    } else {
      LastRuleHit(rules[..|rules| - 1], name, i);
    }
  }

  lemma {:induction false} LastRuleMiss(rules: seq<RuleDoc>, name: string)
    requires forall j :: 0 <= j < |rules| ==> rules[j].name != name
    ensures LastRule(rules, name) == None
  {
    if rules == [] {
    } else {
      LastRuleMiss(rules[..|rules| - 1], name);
    }
  }

  lemma {:induction false} EffectiveHit(rules: seq<RuleDoc>, default: Action, libc: Libc, nr: int, i: nat)
    requires i < |rules| && libc.resolve(rules[i].name) == Some(nr)
    requires forall j :: 0 <= j < i ==> libc.resolve(rules[j].name) != Some(nr)
    ensures EffectiveIn(rules, default, libc, nr) == (rules[i].action, ErrnoOf(rules[i]))
  {
    if i == 0 {
    } else {
      EffectiveHit(rules[1..], default, libc, nr, i - 1);
    }
  }

  lemma {:induction false} EffectiveMiss(rules: seq<RuleDoc>, default: Action, libc: Libc, nr: int)
    requires forall j :: 0 <= j < |rules| ==> libc.resolve(rules[j].name) != Some(nr)
    ensures EffectiveIn(rules, default, libc, nr) == (default, EPERM)
  {
    if rules == [] {
    } else {
      EffectiveMiss(rules[1..], default, libc, nr);
    }
  }

  lemma {:induction false} EffectiveErrno(rules: seq<RuleDoc>, default: Action, libc: Libc, nr: int)
    requires forall r | r in rules :: 0 <= ErrnoOf(r) <= MAX_ERRNO
    ensures 0 <= EffectiveIn(rules, default, libc, nr).1 <= MAX_ERRNO
  {
    if rules == [] {
    } else {
      EffectiveErrno(rules[1..], default, libc, nr);
    }
  }

  // ---------- the refinement ----------

  /** The verdict on `nr` of the filter compiled from the table. */
  function FilterVerdict(c: ProfileDoc, libc: Libc, missing: set<int>, nr: int): Verdict {
    Wanted(TableOf(c, libc), c.default, missing, nr)
  }

  /** Does the filter of this table send some call to the monitor? By `ListenerExactly` that is when it has
      a listener. */
  predicate Notifies(c: ProfileDoc, libc: Libc, missing: set<int>) {
    ToMonitor(c.default) || SomeRuleNotifies(TableOf(c, libc), missing)
  }

  /** The errno that the kernel returns for an ERRNO rule: the low 16 bits, and at most 4095. */
  function FilterErrno(errno: int): int {
    var low := errno % 0x1_0000;
    if low > MAX_ERRNO then MAX_ERRNO else low
  }

  /** An errno that the kernel can return is kept; a larger one becomes 4095. */
  lemma ErrnoKept(errno: int)
    ensures 0 <= errno <= 4095 ==> FilterErrno(errno) == errno
    ensures 4095 <= errno < 65_536 ==> FilterErrno(errno) == 4095
    ensures FilterErrno(errno + 65_536) == FilterErrno(errno)
  {
  }

  /** When the table's answer `t` and the monitor's answer `f` together amount to what is `meant`. */
  predicate Realised(t: (Action, int), f: (Action, int), meant: (Action, int)) {
    match meant.0
    case Allow => t.0.Allow?
    case Errno => t.0.Errno? && FilterErrno(t.1) == meant.1
    case Notify => ToMonitor(t.0) && (f.0.Notify? || (f.0.Errno? && (f.1 == EPERM || f.1 == 0)))
    case Kill => ToMonitor(t.0) && f.0.Kill?
  }

  lemma OutcomeRealised(m: ProfileDoc, nr: int, t: (Action, int), f: (Action, int), meant: (Action, int))
    requires MonitorLookup(m, SyscallName(nr)) == f
    ensures Piped(ToScmp(t.0, t.1), m, nr) == Meant(meant.0, meant.1) <==> Realised(t, f, meant)
  {
    hide SyscallName, MonitorLookup;
    match t.0 case Allow => case Errno => case Notify => case Kill =>
  }

  /** Filter and monitor together, for any two profiles that profile.c and policy.rs may have seen: a
      call comes to what the monitor's profile means by it if and only if the answer of the C table and
      the answer under the monitor's name for the number amount to that. */
  lemma CallsExactly(c: ProfileDoc, m: ProfileDoc, libc: Libc, missing: set<int>, nr: int)
    requires nr !in missing
    ensures var meant := Effective(m, libc, nr);
      Piped(FilterVerdict(c, libc, missing, nr), m, nr) == Meant(meant.0, meant.1) <==>
      Realised(TableAnswer(c, libc, nr), MonitorLookup(m, SyscallName(nr)), meant)
  {
    hide Piped, Meant, Realised, MonitorLookup, SyscallName, Lookup, TableOf, Effective;
    OutcomeRealised(m, nr, TableAnswer(c, libc, nr), MonitorLookup(m, SyscallName(nr)), Effective(m, libc, nr));
  }

  /** When a rule keeps its meaning: the filter settles it, or the answer under the monitor's name for
      the number is the same. */
  predicate FallbackAgrees(a: Action, fallback: Action, errno: int) {
    match a
    case Allow => true
    case Errno => true
    case Notify => fallback.Notify? || (fallback.Errno? && (errno == EPERM || errno == 0))
    case Kill => fallback.Kill?
  }

  /** For a valid profile on which the readers agree only the monitor's name for the number counts. On
      every number, named, unnamed or named differently, filter and monitor give what the profile means
      if and only if the monitor's answer under its name agrees. */
  lemma ValidCallsExactly(c: ProfileDoc, m: ProfileDoc, libc: Libc, missing: set<int>, nr: int)
    requires ValidDoc(c, libc) && Alike(c, m) && nr !in missing
    ensures var (a, e) := Effective(m, libc, nr);
      var (f, g) := MonitorLookup(m, SyscallName(nr));
      var piped := Piped(FilterVerdict(c, libc, missing, nr), m, nr);
      && (ToMonitor(a) ==> piped == (Answered(Answer(f, g), f.Kill?), true))
      && (piped == Meant(a, e) <==> FallbackAgrees(a, f, g))
  {
    ValidTable(c, libc, nr);
    AlikeEffective(c, m, libc, nr);
    hide ValidDoc, Alike, MonitorLookup, SyscallName, Lookup, TableOf, Effective;
    CallsExactly(c, m, libc, missing, nr);
  }

  /** Can the monitor name the call, and is that the name by which the profile knows it? */
  predicate Named(doc: ProfileDoc, libc: Libc, nr: int) {
    && SyscallName(nr) != UNKNOWN && libc.resolve(SyscallName(nr)) == Some(nr)
    && forall r | r in doc.rules && libc.resolve(r.name) == Some(nr) :: r.name == SyscallName(nr)
  }

  /** A call that the monitor names as the profile does comes to exactly what its rule means, and is
      audited exactly when that rule is NOTIFY or KILL. */
  lemma NamedCallsRefine(c: ProfileDoc, m: ProfileDoc, libc: Libc, missing: set<int>, nr: int)
    requires ValidDoc(c, libc) && Alike(c, m) && nr !in missing && Named(m, libc, nr)
    ensures var (a, e) := Effective(m, libc, nr);
      Piped(FilterVerdict(c, libc, missing, nr), m, nr) == Meant(a, e)
  {
    hide SyscallName, FilterVerdict, Piped, Meant;
    assert forall i :: 0 <= i < |m.rules| ==> m.rules[i].name == c.rules[i].name;
    ByNameByNumber(m.rules, m.default, libc, nr, SyscallName(nr));
    ValidCallsExactly(c, m, libc, missing, nr);
  }

  /** The twenty calls, by number: in a profile that calls them by these names, each comes to exactly what
      its rule means. */
  lemma TwentyCallsRefine(c: ProfileDoc, m: ProfileDoc, libc: Libc, missing: set<int>, nr: int)
    requires ValidDoc(c, libc) && Alike(c, m) && nr !in missing && Resolves(libc) && MonitorKnows(nr)
    requires forall r | r in m.rules && libc.resolve(r.name) == Some(nr) :: MonitorNames(r.name)
    ensures Named(m, libc, nr)
    ensures var (a, e) := Effective(m, libc, nr);
      Piped(FilterVerdict(c, libc, missing, nr), m, nr) == Meant(a, e)
  {
    assert SyscallName(nr) != UNKNOWN by { KnownIsNamed(nr); }
    hide Resolves, MonitorNames, MonitorKnows, SyscallName, FilterVerdict, Piped, Meant, Effective, ValidDoc, Alike;
    NamesAsResolved(libc, nr);
    forall r | r in m.rules && libc.resolve(r.name) == Some(nr) ensures r.name == SyscallName(nr) {
      NamesApart(libc, r.name, SyscallName(nr));
    }
    NamedCallsRefine(c, m, libc, missing, nr);
  }

  lemma KnownIsNamed(nr: int)
    requires MonitorKnows(nr)
    ensures SyscallName(nr) != UNKNOWN
  {
    assert UNKNOWN[7] == '_';
  }

  /** What is proved of a verdict on `nr`, given what the two readers have seen: exactly when the call comes
      to what is meant. */
  predicate Exact(v: Verdict, c: ProfileDoc, m: ProfileDoc, libc: Libc, nr: int) {
    var meant := Effective(m, libc, nr);
    Piped(v, m, nr) == Meant(meant.0, meant.1) <==>
    Realised(TableAnswer(c, libc, nr), MonitorLookup(m, SyscallName(nr)), meant)
  }

  /** And for files on which they agree: named calls come to what is meant, all others exactly when the
      answer under the monitor's name agrees. */
  predicate Faithful(v: Verdict, m: ProfileDoc, libc: Libc, nr: int) {
    var (a, e) := Effective(m, libc, nr);
    var (f, g) := MonitorLookup(m, SyscallName(nr));
    && (Piped(v, m, nr) == Meant(a, e) <==> FallbackAgrees(a, f, g))
    && (Named(m, libc, nr) ==> Piped(v, m, nr) == Meant(a, e))
  }

  lemma FilterExact(c: ProfileDoc, m: ProfileDoc, libc: Libc, missing: set<int>, nr: int)
    requires nr !in missing
    ensures Exact(FilterVerdict(c, libc, missing, nr), c, m, libc, nr)
  {
    hide Piped, Meant, Realised, MonitorLookup, SyscallName, TableAnswer, FilterVerdict, Effective;
    CallsExactly(c, m, libc, missing, nr);
  }

  lemma AlikeValid(c: ProfileDoc, m: ProfileDoc, libc: Libc)
    requires Alike(c, m) && ValidDoc(m, libc)
    ensures ValidDoc(c, libc)
  {
    forall r | r in c.rules ensures 0 <= ErrnoOf(r) <= MAX_ERRNO {
      var i :| 0 <= i < |c.rules| && c.rules[i] == r;
      assert Says(c.rules[i]) == Says(m.rules[i]) && m.rules[i] in m.rules;
    }
  }

  lemma FilterFaithful(c: ProfileDoc, m: ProfileDoc, libc: Libc, missing: set<int>, nr: int)
    requires Alike(c, m) && ValidDoc(m, libc) && nr !in missing
    ensures Faithful(FilterVerdict(c, libc, missing, nr), m, libc, nr)
  {
    AlikeValid(c, m, libc);
    hide Piped, Meant, FallbackAgrees, MonitorLookup, SyscallName, FilterVerdict, Effective, ValidDoc, Alike, Named;
    ValidCallsExactly(c, m, libc, missing, nr);
    if Named(m, libc, nr) { NamedCallsRefine(c, m, libc, missing, nr); }
  }

  /** Without a rule of that name the fallback is the profile's default. */
  lemma FallbackIsDefault(doc: ProfileDoc)
    requires forall r | r in doc.rules :: r.name != "syscall_unknown"
    ensures MonitorLookup(doc, "syscall_unknown") == (doc.default, 1)
  {
    LastRuleMiss(doc.rules, UNKNOWN);
  }

  /** A KILL rule for call 155 under an ALLOW default, as profiles/strict.json has one for
      pivot_root: the filter passes the call on, and the monitor lets it run. */
  lemma UnnamedKillRuns(libc: Libc)
    requires libc.resolve("pivot_root") == Some(155)
    ensures var doc := ProfileDoc(Allow, [RuleDoc("pivot_root", Kill, None)]);
      Effective(doc, libc, 155).0 == Kill && Piped(ToScmp(Kill, EPERM), doc, 155).0.runs
  {
    var doc := ProfileDoc(Allow, [RuleDoc("pivot_root", Kill, None)]);
    FallbackIsDefault(doc);
    EffectiveHit(doc.rules, doc.default, libc, 155, 0);
  }

  // ---------- the two readers ----------

  /** No rule of the same number stands before `i`. */
  predicate FirstOfNumber(rules: seq<RuleDoc>, libc: Libc, i: nat) {
    && i < |rules| && libc.resolve(rules[i].name).Some?
    && forall k :: 0 <= k < i ==> libc.resolve(rules[k].name) != libc.resolve(rules[i].name)
  }

  /** No rule of the same name stands behind `j`. */
  predicate LastOfName(rules: seq<RuleDoc>, j: nat) {
    j < |rules| && forall k :: j < k < |rules| ==> rules[k].name != rules[j].name
  }

  /** How many rules in front of `i` go into the table of profile.c: those with a known name. */
  function Slot(rules: seq<RuleDoc>, libc: Libc, i: nat): nat
    requires i <= |rules|
  {
    if i == 0 then 0 else Slot(rules, libc, i - 1) + (if libc.resolve(rules[i - 1].name).Some? then 1 else 0)
  }

  /** What the table holds for the first rule of a number: the rule, or nothing if the table is full. */
  function Held(c: ProfileDoc, libc: Libc, i: nat): (Action, int)
    requires i < |c.rules|
  {
    if Slot(c.rules, libc, i) < SB_MAX_SYSCALLS then Says(c.rules[i]) else (c.default, EPERM)
  }

  predicate Listed(rules: seq<RuleDoc>, name: string) { exists j :: 0 <= j < |rules| && rules[j].name == name }

  /** Does some rule name the number `nr`? */
  predicate Numbered(rules: seq<RuleDoc>, libc: Libc, nr: int) {
    exists i :: 0 <= i < |rules| && libc.resolve(rules[i].name) == Some(nr)
  }

  /** What it takes for profile.c, which sees `c`, and policy.rs, which sees `m`, to agree. For each number
      that a rule of `c` names: what the table holds for its first rule is what the last rule of `m` for
      every name of that number says, and the default of `m` for names of it that `m` does not list. And
      the default of `c` is what the last rule of `m` says for names of other numbers, and the default of
      `m` for names of other numbers that it does not list. */
  ghost predicate Consistent(c: ProfileDoc, m: ProfileDoc, libc: Libc) {
    && (forall i: nat, j: nat | FirstOfNumber(c.rules, libc, i) && LastOfName(m.rules, j) &&
            libc.resolve(m.rules[j].name) == libc.resolve(c.rules[i].name) ::
          Held(c, libc, i) == Says(m.rules[j]))
    && (forall i: nat, name | FirstOfNumber(c.rules, libc, i) && !Listed(m.rules, name) &&
            libc.resolve(name) == libc.resolve(c.rules[i].name) ::
          Held(c, libc, i) == (m.default, EPERM))
    && (forall j: nat | LastOfName(m.rules, j) && Elsewhere(c, libc, m.rules[j].name) ::
          (c.default, EPERM) == Says(m.rules[j]))
    && (forall name | !Listed(m.rules, name) && Elsewhere(c, libc, name) :: c.default == m.default)
  }

  /** A name whose number no rule of `c` names. */
  predicate Elsewhere(c: ProfileDoc, libc: Libc, name: string) {
    libc.resolve(name).Some? && !Numbered(c.rules, libc, libc.resolve(name).value)
  }

  /** The table that profile.c loads, looked up by number, and the map that policy.rs loads, looked up by
      a name of that number. */
  ghost predicate ReadersAgree(c: ProfileDoc, m: ProfileDoc, libc: Libc) {
    forall name | libc.resolve(name).Some? :: AnsweredAlike(c, m, libc, name)
  }

  predicate AnsweredAlike(c: ProfileDoc, m: ProfileDoc, libc: Libc, name: string)
    requires libc.resolve(name).Some?
  {
    TableAnswer(c, libc, libc.resolve(name).value) == MonitorLookup(m, name)
  }

  lemma {:induction false} FirstIndex(rules: seq<RuleDoc>, libc: Libc, nr: int) returns (i: nat)
    ensures i <= |rules| && forall k :: 0 <= k < i ==> libc.resolve(rules[k].name) != Some(nr)
    ensures i < |rules| ==> libc.resolve(rules[i].name) == Some(nr) && FirstOfNumber(rules, libc, i)
    ensures i < |rules| <==> Numbered(rules, libc, nr)
  {
    if rules == [] || libc.resolve(rules[0].name) == Some(nr) { return 0; }
    i := FirstIndex(rules[1..], libc, nr);
    i := i + 1;
    assert forall k :: 0 < k < |rules| ==> rules[k] == rules[1..][k - 1];
  }

  lemma {:induction false} LastIndex(rules: seq<RuleDoc>, name: string) returns (j: nat)
    ensures j < |rules| ==> rules[j].name == name && LastOfName(rules, j)
    ensures j >= |rules| ==> !Listed(rules, name)
  {
    if rules == [] { return 0; }
    var n := |rules| - 1;
    if rules[n].name == name { return n; }
    j := LastIndex(rules[..n], name);
    if j < n {
      assert rules[..n][j] == rules[j];
    } else {
      assert forall k :: 0 <= k < n ==> rules[k] == rules[..n][k];
      j := |rules|;
    }
  }

  /** Where the first rule of a number stands in the table. */
  lemma {:induction false} SlotHolds(rules: seq<RuleDoc>, libc: Libc, i: nat)
    requires FirstOfNumber(rules, libc, i)
    ensures var table := Resolved(rules, libc);
      var k := Slot(rules, libc, i);
      k < |table| && table[k] == Rule(libc.resolve(rules[i].name).value, rules[i].action, ErrnoOf(rules[i])) &&
      forall h :: 0 <= h < k ==> table[h].nr != table[k].nr
    decreases i
  {
    hide ErrnoOf;
    if i == 0 {
    } else {
      SlotShifts(rules, libc, i);
      assert rules[1..][i - 1] == rules[i];
      assert forall k :: 0 <= k < i - 1 ==> rules[1..][k] == rules[k + 1];
      SlotHolds(rules[1..], libc, i - 1);
    }
  }

  lemma {:induction false} SlotShifts(rules: seq<RuleDoc>, libc: Libc, i: nat)
    requires 0 < i <= |rules|
    ensures Slot(rules, libc, i) ==
      Slot(rules[1..], libc, i - 1) + (if libc.resolve(rules[0].name).Some? then 1 else 0)
  {
    if i == 1 {
    } else {
      SlotShifts(rules, libc, i - 1);
      assert rules[1..][i - 2] == rules[i - 1];
    }
  }

  /** What profile.c answers for a number: what the table holds for the first rule of it. */
  lemma TableAnswers(c: ProfileDoc, libc: Libc, i: nat)
    requires FirstOfNumber(c.rules, libc, i)
    ensures TableAnswer(c, libc, libc.resolve(c.rules[i].name).value) == Held(c, libc, i)
  {
    SlotHolds(c.rules, libc, i);
    hide Lookup, Slot, Resolved, FirstOfNumber;
    var table := TableOf(c, libc);
    var k := Slot(c.rules, libc, i);
    if k < SB_MAX_SYSCALLS {
      LookupHit(table, c.default, k);
    } else {
      LookupMiss(table, c.default, libc.resolve(c.rules[i].name).value);
    }
  }

  /** A number that no rule names is not in the table. */
  lemma TableLacks(c: ProfileDoc, libc: Libc, nr: int)
    requires !Numbered(c.rules, libc, nr)
    ensures TableAnswer(c, libc, nr) == (c.default, EPERM)
  {
    var table := TableOf(c, libc);
    forall h | 0 <= h < |table| ensures table[h].nr != nr {
      TableFromProfile(c.rules, libc, Resolved(c.rules, libc)[h]);
    }
    LookupMiss(table, c.default, nr);
  }

  /** What policy.rs answers for a name: what its last rule says, else the default. */
  lemma MapAnswers(m: ProfileDoc, name: string, j: nat)
    requires j < |m.rules| ==> m.rules[j].name == name && LastOfName(m.rules, j)
    requires j >= |m.rules| ==> !Listed(m.rules, name)
    ensures MonitorLookup(m, name) == if j < |m.rules| then Says(m.rules[j]) else (m.default, EPERM)
  {
    if j < |m.rules| { LastRuleHit(m.rules, name, j); } else { LastRuleMiss(m.rules, name); }
  }

  /** Both answers for one name, by the first rule of its number and the last rule of the name. */
  lemma BothAnswers(c: ProfileDoc, m: ProfileDoc, libc: Libc, name: string, i: nat, j: nat)
    requires libc.resolve(name).Some?
    requires i < |c.rules| ==> FirstOfNumber(c.rules, libc, i) && libc.resolve(c.rules[i].name) == libc.resolve(name)
    requires i >= |c.rules| ==> !Numbered(c.rules, libc, libc.resolve(name).value)
    requires j < |m.rules| ==> m.rules[j].name == name && LastOfName(m.rules, j)
    requires j >= |m.rules| ==> !Listed(m.rules, name)
    ensures AnsweredAlike(c, m, libc, name) <==>
      (if i < |c.rules| then Held(c, libc, i) else (c.default, EPERM)) ==
      (if j < |m.rules| then Says(m.rules[j]) else (m.default, EPERM))
  {
    hide TableAnswer, MonitorLookup, Held, Says, Listed, Numbered, LastOfName, FirstOfNumber;
    MapAnswers(m, name, j);
    if i < |c.rules| { TableAnswers(c, libc, i); } else { TableLacks(c, libc, libc.resolve(name).value); }
  }

  lemma ConsistentAgrees(c: ProfileDoc, m: ProfileDoc, libc: Libc, name: string)
    requires Consistent(c, m, libc) && libc.resolve(name).Some?
    ensures AnsweredAlike(c, m, libc, name)
  {
    hide AnsweredAlike, Held, Says, Listed, Numbered, LastOfName, FirstOfNumber;
    var i := FirstIndex(c.rules, libc, libc.resolve(name).value);
    var j := LastIndex(m.rules, name);
    BothAnswers(c, m, libc, name, i, j);
  }

  /** profile.c takes the first rule of a number among the first 256, policy.rs the last rule of a name:
      whatever the two have seen, they answer alike for every name of every number if and only if the two
      profiles are consistent. */
  lemma ReadersAgreeExactly(c: ProfileDoc, m: ProfileDoc, libc: Libc)
    ensures ReadersAgree(c, m, libc) <==> Consistent(c, m, libc)
  {
    if Consistent(c, m, libc) {
      hide Consistent, AnsweredAlike;
      forall name | libc.resolve(name).Some? ensures AnsweredAlike(c, m, libc, name) {
        ConsistentAgrees(c, m, libc, name);
      }
    } else if ReadersAgree(c, m, libc) {
      hide AnsweredAlike, Held, Says, Listed, Numbered;
      forall i: nat, j: nat | FirstOfNumber(c.rules, libc, i) && LastOfName(m.rules, j) &&
          libc.resolve(m.rules[j].name) == libc.resolve(c.rules[i].name)
        ensures Held(c, libc, i) == Says(m.rules[j])
      {
        BothAnswers(c, m, libc, m.rules[j].name, i, j);
      }
      forall i: nat, name | FirstOfNumber(c.rules, libc, i) && !Listed(m.rules, name) &&
          libc.resolve(name) == libc.resolve(c.rules[i].name)
        ensures Held(c, libc, i) == (m.default, EPERM)
      {
        BothAnswers(c, m, libc, name, i, |m.rules|);
      }
      forall j: nat | LastOfName(m.rules, j) && Elsewhere(c, libc, m.rules[j].name)
        ensures (c.default, EPERM) == Says(m.rules[j])
      {
        BothAnswers(c, m, libc, m.rules[j].name, |c.rules|, j);
      }
      forall name | !Listed(m.rules, name) && Elsewhere(c, libc, name) ensures c.default == m.default {
        BothAnswers(c, m, libc, name, |c.rules|, |m.rules|);
      }
    }
  }

  function TwoRules(first: string, second: string): ProfileDoc {
    ProfileDoc(Allow, [RuleDoc(first, Allow, None), RuleDoc(second, Kill, None)])
  }

  /** Even on one and the same profile the readers differ: on two rules for one name, on two names for one
      number, and on one rule too many. */
  lemma ReadersDiffer()
    ensures var libc := Libc(name => if name == "a" || name == "b" then Some(5) else None, t => 0);
      && !ReadersAgree(TwoRules("a", "a"), TwoRules("a", "a"), libc)
      && !ReadersAgree(TwoRules("a", "b"), TwoRules("a", "b"), libc)
    ensures var many := ProfileDoc(Allow, ManyRules(257));
      !ReadersAgree(many, many, Libc(name => Some(|name|), t => 0))
  {
    var libc := Libc(name => if name == "a" || name == "b" then Some(5) else None, t => 0);
    OverruledDiffers(TwoRules("a", "a"), libc);
    OverruledDiffers(TwoRules("a", "b"), libc);
    hide ReadersAgree;
    TooManyDiffer(Libc(name => Some(|name|), t => 0));
  }

  /** A second rule for the number of the first that says something else. */
  lemma OverruledDiffers(doc: ProfileDoc, libc: Libc)
    requires |doc.rules| == 2 && libc.resolve(doc.rules[0].name).Some?
    requires libc.resolve(doc.rules[1].name) == libc.resolve(doc.rules[0].name)
    requires Says(doc.rules[0]) != Says(doc.rules[1])
    ensures !ReadersAgree(doc, doc, libc)
  {
    assert FirstOfNumber(doc.rules, libc, 0) && LastOfName(doc.rules, 1);
    assert Held(doc, libc, 0) != Says(doc.rules[1]);
    ReadersAgreeExactly(doc, doc, libc);
    hide ReadersAgree;
  }

  /** The 257th rule does not make it into the table. */
  lemma TooManyDiffer(libc: Libc)
    requires forall name :: libc.resolve(name) == Some(|name|)
    ensures !ReadersAgree(ProfileDoc(Allow, ManyRules(257)), ProfileDoc(Allow, ManyRules(257)), libc)
  {
    var doc := ProfileDoc(Allow, ManyRules(257));
    ManySlots(libc, 257, 256);
    assert FirstOfNumber(doc.rules, libc, 256) && LastOfName(doc.rules, 256);
    assert Held(doc, libc, 256) != Says(doc.rules[256]);
    ReadersAgreeExactly(doc, doc, libc);
    hide ReadersAgree;
  }

  /** `n` KILL rules whose names have the lengths 0 to `n - 1`. */
  function ManyRules(n: nat): seq<RuleDoc> {
    seq(n, i requires 0 <= i < n => RuleDoc(seq(i, k => 'a'), Kill, None))
  }

  lemma {:induction false} ManySlots(libc: Libc, n: nat, i: nat)
    requires i <= n && forall name :: libc.resolve(name).Some?
    ensures Slot(ManyRules(n), libc, i) == i
  {
    if i == 0 {
    } else {
      ManySlots(libc, n, i - 1);
    }
  }
}
