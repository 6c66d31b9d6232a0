/** website/src/data/model.ts, which reproduces the decisions of the monitor for the explorer page,
    and the table of feedback.rs it has to agree with. */
module Explorer {
  import opened Profile
  import opened Pipeline
  import opened Feedback
  import opened Template
  import opened Wrappers

  // ---------- looking up an action ----------

  /** `lookup` of model.ts: the last rule for the name, else the default. */
  method LookupAction(doc: ProfileDoc, syscall: string) returns (action: Action, errno: int, listed: bool)
    ensures (action, errno) == MonitorLookup(doc, syscall)
    ensures listed <==> exists r :: r in doc.rules && r.name == syscall
  {
    var hit: Option<(Action, int)> := None;
    var rules := doc.rules;
    for i := 0 to |rules|
      invariant hit == LastRule(rules[..i], syscall)
      invariant hit.Some? <==> exists r :: r in rules[..i] && r.name == syscall
    {
      assert rules[..i + 1][..i] == rules[..i] && rules[..i + 1] == rules[..i] + [rules[i]];
      if rules[i].name == syscall { hit := Some((rules[i].action, ErrnoOf(rules[i]))); }
    }
    assert rules[..|rules|] == rules;
    match hit
    case Some(h) => return h.0, h.1, true;
    case None => return doc.default, 1, false;
  }

  // ---------- counting actions ----------

  function Names(rules: seq<RuleDoc>): set<string> { set r | r in rules :: r.name }

  /** The listed names that a lookup decides with action `a`. */
  function Decided(rules: seq<RuleDoc>, a: Action): set<string> {
    set n | n in Names(rules) && LastRule(rules, n).Some? && LastRule(rules, n).value.0 == a
  }

  /** The names of `names` that the map sends to `a`. */
  function Sent(seen: map<string, Action>, names: set<string>, a: Action): set<string>
    requires names <= seen.Keys
  {
    set n | n in names && seen[n] == a
  }

  /** The first loop of `countActions`: the last action of every name. */
  method LastActions(rules: seq<RuleDoc>) returns (seen: map<string, Action>)
    ensures seen.Keys == Names(rules)
    ensures forall n | n in seen :: LastRule(rules, n).Some? && LastRule(rules, n).value.0 == seen[n]
  {
    seen := map[];
    for i := 0 to |rules|
      invariant seen.Keys == Names(rules[..i])
      invariant forall n | n in seen :: LastRule(rules[..i], n).Some? && LastRule(rules[..i], n).value.0 == seen[n]
    {
      assert rules[..i + 1][..i] == rules[..i] && rules[..i + 1] == rules[..i] + [rules[i]];
      seen := seen[rules[i].name := rules[i].action];
    }
    assert rules[..|rules|] == rules;
  }

  /** The second loop of `countActions`: how often each action occurs. */
  method Tally(seen: map<string, Action>) returns (allow: nat, errno: nat, notify: nat, kill: nat)
    ensures allow == |Sent(seen, seen.Keys, Allow)| && errno == |Sent(seen, seen.Keys, Errno)|
    ensures notify == |Sent(seen, seen.Keys, Notify)| && kill == |Sent(seen, seen.Keys, Kill)|
    ensures allow + errno + notify + kill == |seen|
  {
    hide Sent;
    allow, errno, notify, kill := 0, 0, 0, 0;
    var left := seen.Keys;
    ghost var done: set<string> := {};
    NoneSent(seen);
    while left != {}
      invariant done <= seen.Keys && left == seen.Keys - done
      invariant allow == |Sent(seen, done, Allow)| && errno == |Sent(seen, done, Errno)|
      invariant notify == |Sent(seen, done, Notify)| && kill == |Sent(seen, done, Kill)|
      invariant allow + errno + notify + kill == |done|
      decreases left
    {
      var n :| n in left;
      CountOne(seen, done, n);
      match seen[n] {
        case Allow => allow := allow + 1;
        case Errno => errno := errno + 1;
        case Notify => notify := notify + 1;
        case Kill => kill := kill + 1;
      }
      left, done := left - {n}, done + {n};
    }
    assert done == seen.Keys;
  }

  lemma NoneSent(seen: map<string, Action>)
    ensures forall a :: Sent(seen, {}, a) == {}
  {
  }

  /** `countActions`: every distinct name counts once, under the action that a lookup gives it, so
      the counts add up to the number of distinct names. */
  method CountActions(doc: ProfileDoc) returns (allow: nat, errno: nat, notify: nat, kill: nat)
    ensures allow == |Decided(doc.rules, Allow)| && errno == |Decided(doc.rules, Errno)|
    ensures notify == |Decided(doc.rules, Notify)| && kill == |Decided(doc.rules, Kill)|
    ensures allow + errno + notify + kill == |Names(doc.rules)|
  {
    var seen := LastActions(doc.rules);
    assert forall a :: Sent(seen, seen.Keys, a) == Decided(doc.rules, a);
    allow, errno, notify, kill := Tally(seen);
    assert |seen| == |seen.Keys|;
  }

  lemma CountOne(seen: map<string, Action>, done: set<string>, n: string)
    requires done <= seen.Keys && n in seen && n !in done
    ensures forall a :: |Sent(seen, done + {n}, a)| == |Sent(seen, done, a)| + (if a == seen[n] then 1 else 0)
    ensures |done + {n}| == |done| + 1
  {
    forall a ensures |Sent(seen, done + {n}, a)| == |Sent(seen, done, a)| + (if a == seen[n] then 1 else 0) {
      if a == seen[n] {
        assert Sent(seen, done + {n}, a) == Sent(seen, done, a) + {n};
      } else {
        assert Sent(seen, done + {n}, a) == Sent(seen, done, a);
      }
    }
  }

  // ---------- messages ----------

  datatype Entry = Entry(zh: string, en: string, hint: string)
  datatype Group = Group(syscalls: seq<string>, entry: Entry)

  /** The last group that lists a name. */
  function LastGroup(groups: seq<Group>, name: string): Option<Entry> {
    if groups == [] then None else
    var g := groups[|groups| - 1];
    if name in g.syscalls then Some(g.entry) else LastGroup(groups[..|groups| - 1], name)
  }

  /** The first group that lists a name. */
  function FirstGroup(groups: seq<Group>, name: string): Option<Entry> {
    if groups == [] then None
    else if name in groups[0].syscalls then Some(groups[0].entry)
    else FirstGroup(groups[1..], name)
  }

  predicate Disjoint(groups: seq<Group>) {
    forall i, j, n :: 0 <= i < j < |groups| && n in groups[i].syscalls ==> n !in groups[j].syscalls
  }

  lemma {:induction false} FirstGroupHit(groups: seq<Group>, name: string, i: nat)
    requires i < |groups| && name in groups[i].syscalls
    requires forall j :: 0 <= j < i ==> name !in groups[j].syscalls
    ensures FirstGroup(groups, name) == Some(groups[i].entry)
  {
    if i == 0 {
    } else {
      FirstGroupHit(groups[1..], name, i - 1);
    }
  }

  lemma {:induction false} LastGroupHit(groups: seq<Group>, name: string, i: nat)
    requires i < |groups| && name in groups[i].syscalls
    requires forall j :: i < j < |groups| ==> name !in groups[j].syscalls
    ensures LastGroup(groups, name) == Some(groups[i].entry)
  {
    if i == |groups| - 1 {
    } else {
      LastGroupHit(groups[..|groups| - 1], name, i);
    }
  }

  lemma {:induction false} NoGroup(groups: seq<Group>, name: string)
    requires forall j :: 0 <= j < |groups| ==> name !in groups[j].syscalls
    ensures FirstGroup(groups, name) == None
    decreases groups
  {
    if groups == [] {
    } else {
      NoGroup(groups[1..], name);
    }
  }

  lemma {:induction false} NoGroupLast(groups: seq<Group>, name: string)
    requires forall j :: 0 <= j < |groups| ==> name !in groups[j].syscalls
    ensures LastGroup(groups, name) == None
  {
    if groups == [] {
    } else {
      NoGroupLast(groups[..|groups| - 1], name);
    }
  }

  /** With disjoint groups it does not matter which end one starts from. */
  lemma GroupsAgree(groups: seq<Group>, name: string)
    requires Disjoint(groups)
    ensures FirstGroup(groups, name) == LastGroup(groups, name)
  {
    if i :| 0 <= i < |groups| && name in groups[i].syscalls {
      FirstGroupHit(groups, name, i);
      LastGroupHit(groups, name, i);
    } else {
      NoGroup(groups, name);
      NoGroupLast(groups, name);
    }
  }

  class FeedbackMap {
    var default: Entry
    var byName: map<string, Entry>

    ghost predicate Loaded(default: Entry, groups: seq<Group>)
      reads this
    {
      && this.default == default
      && forall n :: LastGroup(groups, n) == if n in byName then Some(byName[n]) else None
    }

    /** `FeedbackMap::load`, from the decoded file. */
    constructor (default: Entry, groups: seq<Group>)
      ensures Loaded(default, groups)
    {
      this.default, byName := default, map[];
      new;
      for i := 0 to |groups|
        invariant Loaded(default, groups[..i])
      {
        var names := groups[i].syscalls;
        ghost var before := byName;
        for j := 0 to |names|
          invariant this.default == default
          invariant forall n :: n in byName <==> n in before || n in names[..j]
          invariant forall n | n in byName :: byName[n] == if n in names[..j] then groups[i].entry else before[n]
        {
          assert names[..j + 1] == names[..j] + [names[j]];
          byName := byName[names[j] := groups[i].entry];
        }
        assert names[..|names|] == names && groups[..i + 1][..i] == groups[..i];
      }
      assert groups[..|groups|] == groups;
    }

    /** `build` */
    method Build(name: string, profile: string, args: seq<nat>, ghost groups: seq<Group>) returns (shown: Entry)
      requires |args| == 6 && Loaded(default, groups)
      ensures var e := (match LastGroup(groups, name) case Some(e) => e case None => default);
        var bs := Bindings(name, profile, args);
        shown == Entry(Sequential(e.zh, bs), Sequential(e.en, bs), Sequential(e.hint, bs))
    {
      var entry := if name in byName then byName[name] else default;
      var zh := Substitute(entry.zh, name, profile, args);
      var en := Substitute(entry.en, name, profile, args);
      var hint := Substitute(entry.hint, name, profile, args);
      shown := Entry(zh, en, hint);
    }
  }

  /** `fill` of model.ts: two replacements, then one pass for all arguments. */
  function FillTemplate(tpl: string, name: string, profile: string, args: seq<nat>): string
    requires |args| == 6
  {
    Simultaneous(Replace(Replace(tpl, Hole("name"), name), Hole("profile"), profile), ArgBindings(args, 0))
  }

  /** A template and values on which both sides agree: braces that do not nest, a brace-free name, a
      profile name that can start no placeholder, and no `$`, which JavaScript would read as a pattern. */
  predicate Common(tpl: string, name: string, profile: string) {
    Unnested(tpl) && '{' !in name && Innocent(profile) && '$' !in name && '$' !in profile
  }

  /** The explorer fills a template as the monitor does. */
  lemma FillAgrees(tpl: string, name: string, profile: string, args: seq<nat>)
    requires |args| == 6 && Common(tpl, name, profile)
    ensures FillTemplate(tpl, name, profile, args) == Sequential(tpl, Bindings(name, profile, args))
  {
    hide Replace, Hole, Innocent, Quiet, Deaf, Unnested, Simultaneous;
    var bs := Bindings(name, profile, args);
    BindingsQuiet(name, profile, args);
    PiecesText(tpl);
    UnnestedFlat(tpl);
    var ps := Pieces(tpl);
    FlatDeafAll(ps, bs);
    SequentialFills(ps, bs);
    assert bs[0] in bs && bs[1..][0] == bs[1] && bs[1] in bs && bs[1..][1..] == ArgBindings(args, 0);
    ReplaceFills(ps, bs[0]);
    FilledDeaf(ps, bs);
    FillFirst(ps, bs);
    var named := Fill(ps, bs[0]);
    assert bs[1..][0] in bs[1..];
    ReplaceFills(named, bs[1]);
    FilledDeaf(named, bs[1..]);
    FillFirst(named, bs[1..]);
    SimultaneousFills(Fill(named, bs[1]), ArgBindings(args, 0));
  }

  /** `semantic` of model.ts. */
  function Semantic(default: Entry, groups: seq<Group>, name: string, profile: string, args: seq<nat>): Entry
    requires |args| == 6
  {
    var e := match FirstGroup(groups, name) case Some(e) => e case None => default;
    Entry(FillTemplate(e.zh, name, profile, args), FillTemplate(e.en, name, profile, args),
          FillTemplate(e.hint, name, profile, args))
  }

  /** The explorer shows the message that `build` of feedback.rs makes, when the groups are disjoint
      and the templates and values are of the common kind. */
  lemma SemanticAgrees(default: Entry, groups: seq<Group>, name: string, profile: string, args: seq<nat>)
    requires |args| == 6 && Disjoint(groups)
    requires var e := match LastGroup(groups, name) case Some(e) => e case None => default;
      Common(e.zh, name, profile) && Common(e.en, name, profile) && Common(e.hint, name, profile)
    ensures var e := match LastGroup(groups, name) case Some(e) => e case None => default;
      var bs := Bindings(name, profile, args);
      Semantic(default, groups, name, profile, args) ==
        Entry(Sequential(e.zh, bs), Sequential(e.en, bs), Sequential(e.hint, bs))
  {
    GroupsAgree(groups, name);
    var e := match LastGroup(groups, name) case Some(e) => e case None => default;
    FillAgrees(e.zh, name, profile, args);
    FillAgrees(e.en, name, profile, args);
    FillAgrees(e.hint, name, profile, args);
  }
}
