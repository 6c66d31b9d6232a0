/** seccomp.c: compiling a profile into the kernel filter. */
module Filter {
  import opened Profile

  /** What the kernel does with a system call. */
  datatype Verdict = VAllow | VErrno(errno: nat) | VNotify

  /** `to_scmp_action`: KILL goes to the monitor too; an errno keeps its low 16 bits. */
  function ToScmp(a: Action, errno: int): Verdict {
    match a
    case Allow => VAllow
    case Errno => VErrno(errno % 0x1_0000)
    case Notify => VNotify
    case Kill => VNotify
  }

  function RuleVerdict(r: Rule): Verdict { ToScmp(r.action, r.errno) }

  /** The rules of one pass: those that allow, or the others. */
  function Pass(rules: seq<Rule>, allow: bool): seq<Rule> {
    if rules == [] then []
    else if rules[0].action.Allow? == allow then [rules[0]] + Pass(rules[1..], allow)
    else Pass(rules[1..], allow)
  }

  /** The order in which the two passes hand the rules to libseccomp. */
  function Order(rules: seq<Rule>): seq<Rule> { Pass(rules, true) + Pass(rules, false) }

  lemma {:induction false} PassCounts(rules: seq<Rule>)
    ensures multiset(Pass(rules, true)) + multiset(Pass(rules, false)) == multiset(rules)
  {
    if rules == [] {
    } else {
      PassCounts(rules[1..]);
      assert rules == [rules[0]] + rules[1..];
    }
  }

  /** The two passes visit every rule exactly once, the allowing ones first. */
  lemma VisitsEachRuleOnce(rules: seq<Rule>)
    ensures multiset(Order(rules)) == multiset(rules)
    ensures forall i, j :: 0 <= i < j < |Order(rules)| && Order(rules)[j].action.Allow? ==>
      Order(rules)[i].action.Allow?
  {
    PassCounts(rules);
    PassKind(rules, true);
    PassKind(rules, false);
  }

  lemma {:induction false} PassKind(rules: seq<Rule>, allow: bool)
    ensures forall r | r in Pass(rules, allow) :: r in rules && r.action.Allow? == allow
    ensures forall r | r in rules && r.action.Allow? == allow :: r in Pass(rules, allow)
  {
    if rules == [] {
    } else {
      PassKind(rules[1..], allow);
      assert rules == [rules[0]] + rules[1..];
    }
  }

  /** A libseccomp filter under construction. */
  class Context {
    const default: Verdict
    var rules: map<int, Verdict>
    ghost var visited: seq<Rule>

    constructor (default: Verdict)
      ensures this.default == default && rules == map[] && visited == []
    {
      this.default, rules, visited := default, map[], [];
    }

    /** `seccomp_rule_add`. It turns down system calls the architecture lacks (`missing`) and
        rules that only repeat the default; what it makes of a second rule for the same call is
        left open. */
    method RuleAdd(ghost r: Rule, act: Verdict, nr: int, missing: set<int>) returns (rc: int)
      requires nr == r.nr
      modifies this
      ensures visited == old(visited) + [r]
      ensures nr !in old(rules) ==>
        rules == if nr in missing || act == default then old(rules) else old(rules)[nr := act]
      ensures nr in old(rules) ==> rules.Keys == old(rules).Keys
      ensures rc == 0 ==> nr !in missing
    {
      visited := visited + [r];
      if nr in missing || act == default { return -1; }
      if nr in rules {
        if * { return -1; }
      }
      rules := rules[nr := act];
      rc := 0;
    }
  }

  /** What a filter does with `nr`: its rule, or the default. */
  function Decide(default: Verdict, rules: map<int, Verdict>, nr: int): Verdict {
    if nr in rules then rules[nr] else default
  }

  /** What the profile asks the filter to do with `nr`. */
  function Wanted(rules: seq<Rule>, default: Action, missing: set<int>, nr: int): Verdict {
    if nr in missing then ToScmp(default, EPERM) else
    var (a, e) := Lookup(rules, default, nr);
    ToScmp(a, e)
  }

  /** `built` decides as `rules` ask, for the calls of the rules in `done`. */
  ghost predicate Built(built: map<int, Verdict>, default: Verdict, done: seq<Rule>, missing: set<int>) {
    && (forall nr | nr in built :: exists r :: r in done && r.nr == nr)
    && (forall r | r in done ::
          Decide(default, built, r.nr) == if r.nr in missing then default else RuleVerdict(r))
  }

  lemma Extend(built: map<int, Verdict>, default: Verdict, done: seq<Rule>, missing: set<int>, r: Rule)
    requires Built(built, default, done, missing) && forall d | d in done :: d.nr != r.nr
    ensures var more := if r.nr in missing || RuleVerdict(r) == default then built else built[r.nr := RuleVerdict(r)];
      r.nr !in built && Built(more, default, done + [r], missing)
  {
  }

  lemma {:induction false} PassStep(rules: seq<Rule>, allow: bool, i: nat)
    requires i < |rules|
    ensures Pass(rules[..i + 1], allow) ==
      Pass(rules[..i], allow) + (if rules[i].action.Allow? == allow then [rules[i]] else [])
  {
    if i == 0 {
      assert rules[..1] == [rules[0]];
    } else {
      PassStep(rules[1..], allow, i - 1);
      assert rules[..i + 1][1..] == rules[1..][..i] && rules[..i][1..] == rules[1..][..i - 1];
    }
  }

  /** Distinct numbers stay apart between what was visited and the rule in turn. */
  lemma NotYet(rules: seq<Rule>, allow: bool, i: nat, done: seq<Rule>)
    requires i < |rules| && DistinctNumbers(rules) && rules[i].action.Allow? == allow
    requires done == (if allow then [] else Pass(rules, true)) + Pass(rules[..i], allow)
    ensures forall d | d in done :: d.nr != rules[i].nr
  {
    PassKind(rules, true);
    PassKind(rules[..i], allow);
  }

  /** `sb_seccomp_install` up to the load: for distinct system calls the filter decides every
      number as the profile asks, and each rule was handed over once. */
  method Compile(p: Table, missing: set<int>) returns (ctx: Context)
    requires p.Valid()
    ensures fresh(ctx) && ctx.default == ToScmp(p.defaultAction, EPERM)
    ensures ctx.visited == Order(p.Rules())
    ensures DistinctNumbers(p.Rules()) ==> forall nr ::
      Decide(ctx.default, ctx.rules, nr) == Wanted(p.Rules(), p.defaultAction, missing, nr)
  {
    ctx := new Context(ToScmp(p.defaultAction, EPERM));
    ghost var rules := p.Rules();
    ghost var distinct := DistinctNumbers(rules);
    var pass := 0;
    while pass < 2
      invariant 0 <= pass <= 2 && p.Rules() == rules && fresh(ctx)
      invariant ctx.visited == if pass == 0 then [] else if pass == 1 then Pass(rules, true) else Order(rules)
      invariant distinct ==> Built(ctx.rules, ctx.default, ctx.visited, missing)
    {
      ghost var before := ctx.visited;
      var i := 0;
      while i < p.count
        invariant 0 <= i <= p.count && p.Rules() == rules && fresh(ctx)
        invariant ctx.visited == before + Pass(rules[..i], pass == 0)
        invariant distinct ==> Built(ctx.rules, ctx.default, ctx.visited, missing)
      {
        PassStep(rules, pass == 0, i);
        if !((pass == 0 && !p.rules[i].action.Allow?) || (pass == 1 && p.rules[i].action.Allow?)) {
          ghost var r := rules[i];
          if distinct {
            NotYet(rules, pass == 0, i, ctx.visited);
            Extend(ctx.rules, ctx.default, ctx.visited, missing, r);
          }
          var act := ToScmp(p.rules[i].action, p.rules[i].errno);
          var rc := ctx.RuleAdd(r, act, p.rules[i].nr, missing);
        }
        i := i + 1;
      }
      assert rules[..i] == rules;
      pass := pass + 1;
    }
    if distinct { BuiltDecides(ctx.rules, rules, p.defaultAction, missing); }
  }

  lemma BuiltDecides(built: map<int, Verdict>, rules: seq<Rule>, default: Action, missing: set<int>)
    requires DistinctNumbers(rules) && Built(built, ToScmp(default, EPERM), Order(rules), missing)
    ensures forall nr :: Decide(ToScmp(default, EPERM), built, nr) == Wanted(rules, default, missing, nr)
  {
    PassKind(rules, true);
    PassKind(rules, false);
    forall nr ensures Decide(ToScmp(default, EPERM), built, nr) == Wanted(rules, default, missing, nr) {
      if r :| r in rules && r.nr == nr {
        var i :| 0 <= i < |rules| && rules[i] == r;
        LookupHit(rules, default, i);
      } else {
        LookupMiss(rules, default, nr);
      }
    }
  }

  /** `seccomp_load` makes a listener exactly when some call is to be notified. Without one
      `seccomp_notify_fd` fails, and the install with it. */
  predicate HasListener(default: Verdict, rules: map<int, Verdict>) {
    default.VNotify? || exists nr | nr in rules :: rules[nr].VNotify?
  }

  predicate ToMonitor(a: Action) { a.Notify? || a.Kill? }

  /** A rule, for a call the architecture has, that sends the call to the monitor. */
  predicate SomeRuleNotifies(rules: seq<Rule>, missing: set<int>) {
    exists r | r in rules :: ToMonitor(r.action) && r.nr !in missing
  }

  /** `sb_seccomp_install`: it succeeds exactly when the filter loads and has a listener; and for
      distinct numbers it has one exactly when the default or a rule sends calls to the monitor. */
  method Install(p: Table, missing: set<int>, loads: bool) returns (ok: bool, ctx: Context)
    requires p.Valid()
    ensures fresh(ctx) && ctx.visited == Order(p.Rules()) && ctx.default == ToScmp(p.defaultAction, EPERM)
    ensures DistinctNumbers(p.Rules()) ==> forall nr ::
      Decide(ctx.default, ctx.rules, nr) == Wanted(p.Rules(), p.defaultAction, missing, nr)
    ensures ok <==> loads && HasListener(ctx.default, ctx.rules)
    ensures DistinctNumbers(p.Rules()) ==>
      (ok <==> loads && (ToMonitor(p.defaultAction) || SomeRuleNotifies(p.Rules(), missing)))
  {
    ctx := Compile(p, missing);
    ok := loads && HasListener(ctx.default, ctx.rules);
    if DistinctNumbers(p.Rules()) { ListenerExactly(p.Rules(), p.defaultAction, missing, ctx.rules); }
  }

  /** A filter that decides as the profile asks has a listener if and only if the profile sends some
      call to the monitor. */
  lemma ListenerExactly(rules: seq<Rule>, default: Action, missing: set<int>, built: map<int, Verdict>)
    requires DistinctNumbers(rules)
    requires forall nr :: Decide(ToScmp(default, EPERM), built, nr) == Wanted(rules, default, missing, nr)
    ensures HasListener(ToScmp(default, EPERM), built) <==> ToMonitor(default) || SomeRuleNotifies(rules, missing)
  {
    if !ToMonitor(default) {
      if nr :| nr in built && built[nr].VNotify? {
        assert Decide(ToScmp(default, EPERM), built, nr).VNotify?;
        NotifiedByRule(rules, default, missing, nr);
      }
      if i :| 0 <= i < |rules| && ToMonitor(rules[i].action) && rules[i].nr !in missing {
        LookupHit(rules, default, i);
        assert Decide(ToScmp(default, EPERM), built, rules[i].nr).VNotify?;
      }
    }
  }

  /** A call that only a rule can have sent to the monitor has such a rule. */
  lemma {:induction false} NotifiedByRule(rules: seq<Rule>, default: Action, missing: set<int>, nr: int)
    requires Wanted(rules, default, missing, nr).VNotify? && !ToScmp(default, EPERM).VNotify?
    ensures nr !in missing
    ensures exists r :: r in rules && r.nr == nr && (r.action.Notify? || r.action.Kill?)
  {
    if rules == [] {
    } else if rules[0].nr == nr {
      assert rules[0] in rules;
    } else {
      NotifiedByRule(rules[1..], default, missing, nr);
    }
  }
}
