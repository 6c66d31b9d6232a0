/** profile.c: the rule table of a security profile, loaded from its JSON tree. */
module Profile {
  import opened Decimal
  import opened JsonSpec
  import opened JsonHeap
  import JsonParser
  import opened Wrappers

  datatype Action = Allow | Errno | Notify | Kill

  const EPERM: int := 1
  const SB_MAX_SYSCALLS: nat := 256

  datatype Rule = Rule(nr: int, action: Action, errno: int)

  /** The two library calls the loader leans on: `seccomp_syscall_resolve_name`, and the cast of a
      parsed `double` to `long long`. */
  datatype Libc = Libc(resolve: string -> Option<int>, truncate: string -> int)

  /** `parse_action` */
  function ParseAction(s: string): Option<Action> {
    var s := CString(s);
    if s == "ALLOW" then Some(Allow)
    else if s == "ERRNO" then Some(Errno)
    else if s == "NOTIFY" then Some(Notify)
    else if s == "KILL" then Some(Kill)
    else None
  }

  function ActionText(a: Action): (s: string)
    ensures ParseAction(s) == Some(a)
  {
    match a case Allow => "ALLOW" case Errno => "ERRNO" case Notify => "NOTIFY" case Kill => "KILL"
  }

  function AsStr(v: Option<Json>): Option<string> {
    if v.Some? && v.value.Str? then Some(v.value.s) else None
  }

  function AsInt(v: Option<Json>, default: int, libc: Libc): int {
    match v
    case Some(Int(i)) => i
    case Some(Num(t)) => libc.truncate(t)
    case _ => default
  }

  /** A cast to C `int`: the one 32-bit number congruent to `i`. */
  function ToInt32(i: int): (r: int)
    ensures Int32(r) && (r - i) % 0x1_0000_0000 == 0
    ensures Int32(i) ==> r == i
  {
    (i + 0x8000_0000) % 0x1_0000_0000 - 0x8000_0000
  }

  /** The rule an entry of `syscall_rules` stands for; entries without a name, an action, a known
      system call or a known action stand for none. */
  function RuleOf(it: Json, libc: Libc): Option<Rule> {
    var name, act := AsStr(Get(it, "name")), AsStr(Get(it, "action"));
    if name.None? || act.None? then None else
    match (libc.resolve(CString(name.value)), ParseAction(act.value))
    case (Some(nr), Some(a)) => Some(Rule(nr, a, ToInt32(AsInt(Get(it, "errno"), 1, libc))))
    case _ => None
  }

  /** The four texts of actions. */
  predicate Denotes(text: string, a: Action) {
    match a
    case Allow => text == "ALLOW"
    case Errno => text == "ERRNO"
    case Notify => text == "NOTIFY"
    case Kill => text == "KILL"
  }

  predicate Understood(text: string) { text in {"ALLOW", "ERRNO", "NOTIFY", "KILL"} }

  /** `parse_action` knows these texts and no others. */
  lemma ActionsExactly(s: string)
    ensures ParseAction(s).Some? <==> Understood(CString(s))
    ensures ParseAction(s).Some? ==> Denotes(CString(s), ParseAction(s).value)
  {
    hide CString;
  }

  /** The errno of a rule, from the member that gives it: the 32-bit number congruent to the integer, to the
      truncated number, or 1. */
  predicate ErrnoFor(member: Option<Json>, libc: Libc, errno: int) {
    var i := match member case Some(Int(i)) => i case Some(Num(t)) => libc.truncate(t) case _ => 1;
    -2_147_483_648 <= errno <= 2_147_483_647 && (i - errno) % 4_294_967_296 == 0
  }

  /** The rule of an entry, from its members. */
  predicate RuleFor(it: Json, libc: Libc, r: Option<Rule>) {
    match (Get(it, "name"), Get(it, "action"))
    case (Some(Str(n)), Some(Str(a))) =>
      if libc.resolve(CString(n)).None? || !Understood(CString(a)) then r == None
      else
        && r.Some? && Some(r.value.nr) == libc.resolve(CString(n)) && Denotes(CString(a), r.value.action)
        && ErrnoFor(Get(it, "errno"), libc, r.value.errno)
    case _ => r == None
  }

  lemma RuleOfExactly(it: Json, libc: Libc)
    ensures RuleFor(it, libc, RuleOf(it, libc))
  {
    var act := AsStr(Get(it, "action"));
    if act.Some? { ActionsExactly(act.value); }
    ErrnoExactly(Get(it, "errno"), libc);
    hide Get, CString, ParseAction, Denotes, Understood, ErrnoFor, ToInt32, AsInt;
  }

  lemma ErrnoExactly(member: Option<Json>, libc: Libc)
    ensures ErrnoFor(member, libc, ToInt32(AsInt(member, 1, libc)))
  {
  }

  /** The default of a profile, from the member that gives it. */
  predicate DefaultFor(member: Option<Json>, a: Action) {
    match member
    case Some(Str(s)) => if Understood(CString(s)) then Denotes(CString(s), a) else a == Errno
    case _ => a == Errno
  }

  lemma DefaultExactly(root: Json)
    ensures DefaultFor(Get(root, "default_action"), DefaultOf(root))
  {
    var s := AsStr(Get(root, "default_action"));
    ActionsExactly(if s.Some? then s.value else "ERRNO");
    assert CString("ERRNO") == "ERRNO" by { CStringWhole("ERRNO"); }
    hide Get, CString, ParseAction;
  }

  /** All rules of a list, in order and without a limit. */
  function AllRules(items: seq<Json>, libc: Libc): seq<Rule> {
    if items == [] then [] else
    var rest := AllRules(items[1..], libc);
    match RuleOf(items[0], libc) case Some(r) => [r] + rest case None => rest
  }

  /** The places in front of `i` that hold a rule. */
  function Places(items: seq<Json>, libc: Libc, i: nat): set<nat>
    requires i <= |items|
  {
    set j: nat | j < i && RuleOf(items[j], libc).Some?
  }

  /** Every rule of the list, and nothing else, each behind those in front of it. */
  lemma {:induction false} AllRulesExactly(items: seq<Json>, libc: Libc)
    ensures |AllRules(items, libc)| == |Places(items, libc, |items|)|
    ensures forall i: nat | i < |items| && RuleOf(items[i], libc).Some? ::
      var k := |Places(items, libc, i)|;
      k < |AllRules(items, libc)| && AllRules(items, libc)[k] == RuleOf(items[i], libc).value
  {
    hide RuleOf;
    if items == [] {
    } else {
      AllRulesExactly(items[1..], libc);
      var rest := AllRules(items[1..], libc);
      forall i: nat | 0 < i <= |items|
        ensures |Places(items, libc, i)| ==
          |Places(items[1..], libc, i - 1)| + (if RuleOf(items[0], libc).Some? then 1 else 0)
      {
        PlacesShift(items, libc, i);
      }
      forall i: nat | i < |items| && RuleOf(items[i], libc).Some?
        ensures var k := |Places(items, libc, i)|;
          k < |AllRules(items, libc)| && AllRules(items, libc)[k] == RuleOf(items[i], libc).value
      {
        if i == 0 { assert Places(items, libc, 0) == {}; } else { assert items[1..][i - 1] == items[i]; }
      }
    }
  }

  lemma PlacesShift(items: seq<Json>, libc: Libc, i: nat)
    requires 0 < i <= |items|
    ensures |Places(items, libc, i)| ==
      |Places(items[1..], libc, i - 1)| + (if RuleOf(items[0], libc).Some? then 1 else 0)
  {
    hide RuleOf;
    var all, rest := Places(items, libc, i), Places(items[1..], libc, i - 1);
    var moved := all - {0};
    forall j | j in rest ensures j + 1 in moved { assert items[1..][j] == items[j + 1]; }
    forall j | j in moved ensures j > 0 && j - 1 in rest { assert items[1..][j - 1] == items[j]; }
    Moved(rest, moved);
    assert 0 in all <==> RuleOf(items[0], libc).Some?;
  }

  lemma {:induction false} Moved(rest: set<nat>, moved: set<nat>)
    requires forall j | j in rest :: j + 1 in moved
    requires forall j | j in moved :: j > 0 && j - 1 in rest
    ensures |moved| == |rest|
    decreases rest
  {
    if rest == {} {
    } else {
      var j :| j in rest;
      Moved(rest - {j}, moved - {j + 1});
    }
  }

  lemma AllRulesStep(items: seq<Json>, i: nat, libc: Libc)
    requires i <= |items|
    ensures AllRules(items[i..], libc) ==
      if i == |items| then []
      else (match RuleOf(items[i], libc) case Some(r) => [r] case None => []) + AllRules(items[i + 1..], libc)
  {
    hide RuleOf;
    if i < |items| { assert items[i..][1..] == items[i + 1..]; }
  }

  function Capped(rules: seq<Rule>): seq<Rule> {
    if |rules| > SB_MAX_SYSCALLS then rules[..SB_MAX_SYSCALLS] else rules
  }

  /** The first rule for a system call decides; without one the default does, with EPERM. */
  function Lookup(rules: seq<Rule>, default: Action, nr: int): (Action, int) {
    if rules == [] then (default, EPERM)
    else if rules[0].nr == nr then (rules[0].action, rules[0].errno)
    else Lookup(rules[1..], default, nr)
  }

  predicate DistinctNumbers(rules: seq<Rule>) {
    forall i, j :: 0 <= i < j < |rules| ==> rules[i].nr != rules[j].nr
  }

  lemma {:induction false} LookupHit(rules: seq<Rule>, default: Action, i: nat)
    requires i < |rules| && forall j :: 0 <= j < i ==> rules[j].nr != rules[i].nr
    ensures Lookup(rules, default, rules[i].nr) == (rules[i].action, rules[i].errno)
  {
    if i == 0 {
    } else {
      LookupHit(rules[1..], default, i - 1);
    }
  }

  lemma {:induction false} LookupMiss(rules: seq<Rule>, default: Action, nr: int)
    requires forall j :: 0 <= j < |rules| ==> rules[j].nr != nr
    ensures Lookup(rules, default, nr) == (default, 1)
  {
    if rules == [] {
    } else {
      LookupMiss(rules[1..], default, nr);
    }
  }

  // ---------- reading the tree ----------

  /** `v`, a pointer to a value or NULL, is where the tree `t` lies. */
  predicate Lies(m: Mem, v: Addr, t: Located, next: Addr) {
    v != NULL ==> v == t.addr && Shaped(t) && !t.LKey? && Separate(t) && Holds(m, t, next)
  }

  /** What a pointer means. */
  ghost function Pointed(v: Addr, t: Located): Option<Json>
    requires v != NULL ==> Shaped(t) && !t.LKey?
  {
    if v == NULL then None else Some(Erase(t))
  }

  /** `sb_json_as_str` with NULL for a default. */
  method StrAt(heap: Heap, v: Addr, ghost t: Located, ghost next: Addr) returns (s: Option<string>)
    requires Lies(heap.mem, v, t, next)
    ensures s == AsStr(Pointed(v, t))
  {
    if v == NULL { return None; }
    JsonParser.RootCell(heap.mem, t, next);
    if heap.mem[v].kind != KStr { return None; }
    return Some(heap.mem[heap.mem[v].u.s].text);
  }

  /** `sb_json_as_int` */
  method IntAt(heap: Heap, v: Addr, default: int, libc: Libc, ghost t: Located, ghost next: Addr) returns (i: int)
    requires Lies(heap.mem, v, t, next)
    ensures i == AsInt(Pointed(v, t), default, libc)
  {
    if v == NULL { return default; }
    JsonParser.RootCell(heap.mem, t, next);
    if heap.mem[v].kind == KInt { return heap.mem[v].u.i; }
    if heap.mem[v].kind == KNum { return libc.truncate(heap.mem[v].u.lexeme); }
    return default;
  }

  /** The body of the loop in `load_rules`: the rule that the entry at `it` stands for, if any. */
  method ReadRule(heap: Heap, it: Addr, libc: Libc, ghost t: Located, ghost next: Addr) returns (r: Option<Rule>)
    requires it != NULL && Lies(heap.mem, it, t, next)
    ensures r == RuleOf(Erase(t), libc) && RuleFor(Erase(t), libc, r)
  {
    RuleOfExactly(Erase(t), libc);
    hide RuleFor;
    hide Holds, Shaped, Separate, Get, CString;
    var n, nt := JsonParser.Get(heap, it, "name", t, next);
    var name := StrAt(heap, n, nt, NULL);
    var a, at := JsonParser.Get(heap, it, "action", t, next);
    var act := StrAt(heap, a, at, NULL);
    var e, et := JsonParser.Get(heap, it, "errno", t, next);
    var errv := IntAt(heap, e, 1, libc, et, NULL);
    if name.None? || act.None? { return None; }
    var nr := libc.resolve(CString(name.value));
    if nr.None? { return None; }
    var action := ParseAction(act.value);
    if action.None? { return None; }
    return Some(Rule(nr.value, action.value, ToInt32(errv)));
  }

  lemma TakenIsCapped(taken: seq<Rule>, rest: seq<Rule>)
    requires |taken| <= SB_MAX_SYSCALLS && (rest == [] || |taken| == SB_MAX_SYSCALLS)
    ensures taken == Capped(taken + rest)
    ensures taken == if |taken + rest| <= 256 then taken + rest else (taken + rest)[..256]
  {
  }

  // ---------- walking the list of rules ----------

  /** The node in front of which the walk stands. */
  function NodeAt(kids: seq<Located>, i: nat): Addr { if i < |kids| then kids[i].addr else NULL }

  lemma ListRoot(m: Mem, t: Located, next: Addr)
    requires Shaped(t) && !t.LKey? && Separate(t) && Holds(m, t, next)
    ensures t.addr in m && m[t.addr].Node? && (m[t.addr].kind == KArray <==> t.LArr?) && (t.LArr? <==> Erase(t).Arr?)
    ensures t.LArr? ==>
      && m[t.addr].u.UList? && m[t.addr].u.first == NodeAt(t.kids, 0)
      && |Erase(t).elems| == |t.kids| && Erase(t).elems[0..] == Erase(t).elems
  {
    JsonParser.RootCell(m, t, next);
    hide Holds, Separate;
  }

  /** One node of the list: where it lies, what it is linked to and what it adds to the rules. */
  lemma EntryAt(m: Mem, t: Located, next: Addr, i: nat, libc: Libc)
    requires t.LArr? && Shaped(t) && Separate(t) && Holds(m, t, next) && NodeAt(t.kids, i) != NULL
    ensures i < |t.kids| == |Erase(t).elems|
    ensures var k := t.kids[i];
      && k.addr == NodeAt(t.kids, i) && k.addr in m && m[k.addr].Node? && m[k.addr].next == NodeAt(t.kids, i + 1)
      && Lies(m, k.addr, k, NextOf(t.kids, i, NULL)) && Shaped(k) && !k.LKey?
      && AllRules(Erase(t).elems[i..], libc) ==
           (match RuleOf(Erase(k), libc) case Some(r) => [r] case None => []) + AllRules(Erase(t).elems[i + 1..], libc)
  {
    hide Holds, Separate, RuleOf, AllRules;
    JsonParser.ElementCells(m, t, next, i);
    AllRulesStep(Erase(t).elems, i, libc);
  }

  lemma NoMoreNodes(m: Mem, t: Located, next: Addr, i: nat, libc: Libc)
    requires t.LArr? && Shaped(t) && Separate(t) && Holds(m, t, next)
    requires i <= |t.kids| == |Erase(t).elems| && NodeAt(t.kids, i) == NULL
    ensures AllRules(Erase(t).elems[i..], libc) == []
  {
    if i < |t.kids| { JsonParser.ElementCells(m, t, next, i); }
    hide Erase;
    AllRulesStep(Erase(t).elems, i, libc);
  }

  /** `sb_profile_t`, with the table as the fixed array it is. */
  class Table {
    var name: string
    var defaultAction: Action
    const rules: array<Rule>
    var count: nat

    ghost predicate Valid()
      reads this
    {
      rules.Length == SB_MAX_SYSCALLS && count <= rules.Length
    }

    ghost function Rules(): seq<Rule>
      requires Valid()
      reads this, rules
    {
      rules[..count]
    }

    constructor ()
      ensures Valid() && Rules() == [] && fresh(rules)
    {
      rules := new Rule[SB_MAX_SYSCALLS](_ => Rule(0, Allow, 0));
      name, defaultAction, count := "", Allow, 0;
    }

    /** `load_rules`: the first 256 rules of the list, whatever stood in the table before. A value
        that is no array leaves the table alone. */
    method LoadRules(heap: Heap, list: Addr, libc: Libc, ghost t: Located, ghost next: Addr)
      requires Valid() && Lies(heap.mem, list, t, next)
      modifies this`count, rules
      ensures Valid()
      ensures list != NULL && Erase(t).Arr? ==>
        var all := AllRules(Erase(t).elems, libc);
        Rules() == Capped(all) && Rules() == if |all| <= 256 then all else all[..256]
      ensures !(list != NULL && Erase(t).Arr?) ==> Rules() == old(Rules())
    {
      if list == NULL { return; }
      ListRoot(heap.mem, t, next);
      if heap.mem[list].kind != KArray { return; }
      hide RuleOf, AllRules, Holds, Shaped, Separate, Erase, NodeAt, Capped, NextOf;
      ghost var kids, items, i := t.kids, Erase(t).elems, 0;
      count := 0;
      var it := heap.mem[list].u.first;
      while it != NULL
        invariant i <= |kids| == |items| && Valid() && it == NodeAt(kids, i)
        invariant Rules() + AllRules(items[i..], libc) == AllRules(items, libc)
        decreases |kids| - i
      {
        if count >= SB_MAX_SYSCALLS { break; }
        EntryAt(heap.mem, t, next, i, libc);
        LoadRule(heap, it, libc, kids[i], NextOf(kids, i, NULL), AllRules(items[i + 1..], libc));
        it := heap.mem[it].next;
        i := i + 1;
      }
      if it == NULL { NoMoreNodes(heap.mem, t, next, i, libc); }
      TakenIsCapped(Rules(), AllRules(items[i..], libc));
    }

    /** The body of that loop. `rest` is what is still to come. */
    method LoadRule(heap: Heap, it: Addr, libc: Libc, ghost t: Located, ghost next: Addr, ghost rest: seq<Rule>)
      requires Valid() && count < SB_MAX_SYSCALLS && it != NULL && Lies(heap.mem, it, t, next)
      modifies this`count, rules
      ensures Valid()
      ensures Rules() + rest ==
        old(Rules()) + ((match RuleOf(Erase(t), libc) case Some(r) => [r] case None => []) + rest)
    {
      hide RuleOf, Holds, Shaped, Separate, Erase;
      var r := ReadRule(heap, it, libc, t, next);
      if r.Some? { Append(r.value, rest); }
    }

    /** The writes that add a rule to the table. `rest` is what is still to come. */
    method Append(r: Rule, ghost rest: seq<Rule>)
      requires Valid() && count < SB_MAX_SYSCALLS
      modifies this`count, rules
      ensures Valid() && count == old(count) + 1
      ensures Rules() == old(Rules()) + [r] && Rules() + rest == old(Rules()) + ([r] + rest)
    {
      rules[count] := r;
      count := count + 1;
    }

    /** `sb_profile_lookup` */
    method Find(nr: int) returns (a: Action, errno: int)
      requires Valid()
      ensures (a, errno) == Lookup(Rules(), defaultAction, nr)
    {
      ghost var all := Rules();
      for i := 0 to count
        invariant Lookup(all[i..], defaultAction, nr) == Lookup(all, defaultAction, nr)
      {
        if rules[i].nr == nr { return rules[i].action, rules[i].errno; }
        assert all[i..][1..] == all[i + 1..];
      }
      assert all[count..] == [];
      return defaultAction, EPERM;
    }

    /** The default action, as `sb_profile_load` reads it. */
    static method DefaultAction(heap: Heap, root: Addr, ghost t: Located) returns (a: Action)
      requires root != NULL && Lies(heap.mem, root, t, NULL)
      ensures a == DefaultOf(Erase(t)) && DefaultFor(Get(Erase(t), "default_action"), a)
    {
      DefaultExactly(Erase(t));
      hide Holds, Shaped, Separate, Get, CString, ParseAction, DefaultFor, Erase;
      var d, dt := JsonParser.Get(heap, root, "default_action", t, NULL);
      var s := StrAt(heap, d, dt, NULL);
      var action := ParseAction(if s.Some? then s.value else "ERRNO");
      a := if action.Some? then action.value else Errno;
    }

    /** The part of `sb_profile_load` that fills the policy from the parsed root. */
    method Load(heap: Heap, root: Addr, fallbackName: string, libc: Libc, ghost t: Located)
      requires Valid() && root != NULL && Lies(heap.mem, root, t, NULL)
      modifies this, rules
      ensures Valid()
      ensures var n := AsStr(Get(Erase(t), "name"));
        var full := CString(if n.Some? then n.value else fallbackName);
        name == if |full| < 64 then full else full[..63]
      ensures defaultAction == DefaultOf(Erase(t)) && DefaultFor(Get(Erase(t), "default_action"), defaultAction)
      ensures Get(Erase(t), "syscall_rules").Some? && Get(Erase(t), "syscall_rules").value.Arr? ==>
        Rules() == Capped(AllRules(Get(Erase(t), "syscall_rules").value.elems, libc))
      ensures !(Get(Erase(t), "syscall_rules").Some? && Get(Erase(t), "syscall_rules").value.Arr?) ==>
        Rules() == old(Rules())
    {
      hide Holds, Shaped, Separate, Get, AllRules, CString, DefaultOf, DefaultFor, Capped, Erase;
      var n, nt := JsonParser.Get(heap, root, "name", t, NULL);
      var given := StrAt(heap, n, nt, NULL);
      name := CString(if given.Some? then given.value else fallbackName);
      if |name| > 63 { name := name[..63]; }
      defaultAction := DefaultAction(heap, root, t);
      var list, lt := JsonParser.Get(heap, root, "syscall_rules", t, NULL);
      LoadRules(heap, list, libc, lt, NULL);
    }
  }

  /** A missing, mistyped or unknown `default_action` counts as ERRNO. */
  function DefaultOf(root: Json): (a: Action) {
    var s := AsStr(Get(root, "default_action"));
    match ParseAction(if s.Some? then s.value else "ERRNO") case Some(a) => a case None => Errno
  }
}
