/** feedback.rs: the messages shown for a blocked call, made from templates. */
module Feedback {
  import opened Decimal
  import opened Template
  import opened Wrappers

  /** The placeholders of the monitor: the call, the profile and six arguments in decimal. */
  function Bindings(name: string, profile: string, args: seq<nat>): seq<Binding>
    requires |args| == 6
  {
    [Binding("name", name), Binding("profile", profile)] + ArgBindings(args, 0)
  }

  function ArgKey(i: nat): string { "arg" + Decimal.Text(i) }

  function ArgBindings(args: seq<nat>, from: nat): seq<Binding>
    requires from <= |args|
    decreases |args| - from
  {
    if from == |args| then []
    else [Binding(ArgKey(from), Decimal.Text(args[from]))] + ArgBindings(args, from + 1)
  }

  /** All eight placeholders, in the order of their replacement, and what goes into each. */
  lemma BindingsExactly(name: string, profile: string, args: seq<nat>)
    requires |args| == 6
    ensures Bindings(name, profile, args) == [
      Binding("name", name), Binding("profile", profile),
      Binding("arg0", Decimal.Text(args[0])), Binding("arg1", Decimal.Text(args[1])),
      Binding("arg2", Decimal.Text(args[2])), Binding("arg3", Decimal.Text(args[3])),
      Binding("arg4", Decimal.Text(args[4])), Binding("arg5", Decimal.Text(args[5]))]
  {
    ArgKeysExactly();
    hide ArgKey, Decimal.Text;
    assert ArgBindings(args, 6) == [];
    assert ArgBindings(args, 4) == [Binding("arg4", Decimal.Text(args[4])), Binding("arg5", Decimal.Text(args[5]))];
    assert ArgBindings(args, 2) == [Binding("arg2", Decimal.Text(args[2])), Binding("arg3", Decimal.Text(args[3]))] +
      ArgBindings(args, 4);
    assert ArgBindings(args, 0) == [Binding("arg0", Decimal.Text(args[0])), Binding("arg1", Decimal.Text(args[1]))] +
      ArgBindings(args, 2);
  }

  lemma ArgKeysExactly()
    ensures ArgKey(0) == "arg0" && ArgKey(1) == "arg1" && ArgKey(2) == "arg2"
    ensures ArgKey(3) == "arg3" && ArgKey(4) == "arg4" && ArgKey(5) == "arg5"
  {
  }

  lemma DigitsPlain(s: string)
    requires AllDigits(s)
    ensures Braceless(s)
  {
  }

  lemma ArgPlain(i: nat, v: nat)
    ensures Braceless(ArgKey(i)) && '{' !in Decimal.Text(v)
  {
    TextDenotes(i);
    TextDenotes(v);
    DigitsPlain(Decimal.Text(i));
    DigitsPlain(Decimal.Text(v));
  }

  /** The arguments are digits, and so are the ends of their names. */
  lemma {:induction false} ArgsPlain(args: seq<nat>, from: nat)
    requires from <= |args|
    ensures var bs := ArgBindings(args, from);
      KeysPlain(bs) && |bs| == |args| - from && (forall b | b in bs :: '{' !in b.value) &&
      forall i :: 0 <= i < |bs| ==> bs[i].key == ArgKey(from + i)
    decreases |args| - from
  {
    if from == |args| {
    } else {
      ArgPlain(from, args[from]);
      hide ArgKey, Decimal.Text, Braceless;
      ArgsPlain(args, from + 1);
    }
  }

  /** A profile name that can start the placeholder of no argument. */
  predicate Innocent(profile: string) { forall i: nat :: i < 6 ==> Harmless(profile, ArgKey(i)) }

  lemma HarmlessText(v: string, key: string)
    requires '{' !in v
    ensures Harmless(v, key)
  {
  }

  lemma QuietPair(first: Binding, second: Binding, more: seq<Binding>)
    requires '{' !in first.value && forall b | b in more :: '{' !in b.value
    requires forall i :: 0 <= i < |more| ==> Harmless(second.value, more[i].key)
    ensures Quiet([first, second] + more)
  {
    hide Harmless;
    var bs := [first, second] + more;
    assert forall i :: 2 <= i < |bs| ==> bs[i] == more[i - 2] && bs[i] in more;
    forall i, j | 0 <= i < j < |bs| ensures Harmless(bs[i].value, bs[j].key) {
      if i != 1 { HarmlessText(bs[i].value, bs[j].key); }
    }
  }

  lemma BindingsQuiet(name: string, profile: string, args: seq<nat>)
    requires |args| == 6 && '{' !in name && Innocent(profile)
    ensures var bs := Bindings(name, profile, args); KeysPlain(bs) && Quiet(bs)
  {
    hide Harmless, ArgKey, ArgBindings;
    ArgsPlain(args, 0);
    var n, p, more := Binding("name", name), Binding("profile", profile), ArgBindings(args, 0);
    assert KeysPlain([n, p] + more);
    hide Quiet, KeysPlain;
    QuietPair(n, p, more);
  }

  // ---------- exactly when ----------

  lemma {:induction false} NextBraceAt(s: string, i: nat, j: nat)
    requires i <= j < |s| && Braceless(s[i..j]) && (s[j] == '{' || s[j] == '}')
    ensures NextBrace(s, i) == j
    decreases j - i
  {
    if i == j {
    } else {
      assert s[i] == s[i..j][0] && s[i + 1..j] == s[i..j][1..];
      NextBraceAt(s, i + 1, j);
    }
  }

  lemma {:induction false} UnnestedText(t: string)
    requires '{' !in t
    ensures Unnested(t)
  {
    if t == "" {
    } else {
      UnnestedText(t[1..]);
    }
  }

  lemma UnnestedHole(k: string, rest: string)
    requires Braceless(k) && Unnested(rest)
    ensures Unnested(Hole(k) + rest)
  {
    var s := Hole(k) + rest;
    assert s[1..|k| + 1] == k;
    NextBraceAt(s, 1, |k| + 1);
    assert s[|k| + 2..] == rest;
  }

  /** What becomes of the hole of the second binding and a text behind it, one replacement after the
      other. */
  lemma HoleSequential(rest: string, first: Binding, second: Binding, more: seq<Binding>)
    requires '{' !in rest && Braceless(first.key) && Braceless(second.key) && first.key != second.key
    ensures Sequential(Hole(second.key) + rest, [first, second] + more) == Sequential(second.value + rest, more)
  {
    hide Replace, Hole;
    var bs := [first, second] + more;
    assert bs[1..][0] == second && bs[1..][1..] == more;
    ReplacePasses(second.key, rest, first.key, first.value);
    ReplaceNothing(rest, first);
    ReplaceHits(rest, second.key, second.value);
    ReplaceNothing(rest, second);
  }

  /** And in one pass. */
  lemma HoleSimultaneous(rest: string, first: Binding, second: Binding, more: seq<Binding>)
    requires '{' !in rest && KeysPlain([first, second] + more) && first.key != second.key
    ensures Simultaneous(Hole(second.key) + rest, [first, second] + more) == second.value + rest
  {
    var bs := [first, second] + more;
    assert bs[1..][0] == second;
    assert second in bs && Lookup(bs, second.key) == Some(second.value);
    hide Hole, Simultaneous, Lookup, KeysPlain;
    SimultaneousGap(second.key, rest, bs);
    SimultaneousSkips(rest, "", bs);
    NothingMade(bs);
    assert rest + "" == rest;
  }

  lemma NothingMade(bs: seq<Binding>)
    ensures Simultaneous("", bs) == ""
  {
  }

  lemma ReplaceNothing(t: string, b: Binding)
    requires '{' !in t
    ensures Replace(t, Hole(b.key), b.value) == t
  {
    ReplaceSkips(t, "", Hole(b.key), b.value);
    assert t + "" == t;
  }

  /** What is missing behind `v` for a placeholder that `v` can start. */
  function Missing(v: string, h: string): string { if v <= h then h[|v|..] else "" }

  lemma MissingCompletes(v: string, key: string)
    requires Braceless(key) && v != "" && v[0] == '{' && !Apart(v, Hole(key))
    ensures '{' !in Missing(v, Hole(key)) && Hole(key) <= v + Missing(v, Hole(key))
  {
    var h := Hole(key);
    if v <= h {
      assert v + h[|v|..] == h;
      forall j | 0 <= j < |h| - |v| ensures h[|v|..][j] != '{' {
        var k := |v| + j;
        if k < |h| - 1 { assert h[k] == key[k - 1] && key[k - 1] in key; }
      }
    }
  }

  /** The monitor's replacements never give back what a binding of an argument takes away. */
  lemma Loses(v: string, before: string, rest: string, args: seq<Binding>, b: Binding)
    requires (forall a | a in args :: '{' !in a.value) && b in args && Hole(b.key) <= v + rest
    ensures Sequential(before + v + rest, args) != before + v + rest
  {
    var x := before + v + rest;
    assert x[|before|..] == v + rest;
    assert Occurs(x, Hole(b.key));
    SequentialLowers(x, args);
  }

  /** A profile name that can start the placeholder of an argument has a template on which the monitor
      goes wrong: its own hole, and the rest of that placeholder. */
  lemma NotInnocent(name: string, profile: string, args: seq<nat>, i: nat, k: nat) returns (tpl: string)
    requires |args| == 6 && i < 6
    requires k < |profile| && profile[k] == '{' && !Apart(profile[k..], Hole(ArgKey(i)))
    ensures Unnested(tpl)
    ensures Sequential(tpl, Bindings(name, profile, args)) != Simultaneous(tpl, Bindings(name, profile, args))
  {
    hide Sequential, Simultaneous, Unnested, Hole, ArgKey, Missing, ArgBindings;
    var b, more, v := Binding("profile", profile), ArgBindings(args, 0), profile[k..];
    ArgsPlain(args, 0);
    assert more[i] in more && more[i].key == ArgKey(i);
    MissingCompletes(v, ArgKey(i));
    var rest := Missing(v, Hole(ArgKey(i)));
    tpl := Hole(b.key) + rest;
    UnnestedText(rest);
    UnnestedHole(b.key, rest);
    var n := Binding("name", name);
    assert KeysPlain([n, b] + more);
    HoleSequential(rest, n, b, more);
    HoleSimultaneous(rest, n, b, more);
    assert profile == profile[..k] + v;
    Loses(v, profile[..k], rest, more, more[i]);
  }

  /** Exactly when: for the brace-free name of a call and any arguments, replacing one placeholder after
      the other is one simultaneous substitution on all templates whose braces do not nest, if and only
      if no opening brace of the profile name can start the placeholder of an argument. */
  lemma SubstitutionExactly(name: string, profile: string, args: seq<nat>)
    requires |args| == 6 && '{' !in name
    ensures (forall tpl | Unnested(tpl) ::
        Sequential(tpl, Bindings(name, profile, args)) == Simultaneous(tpl, Bindings(name, profile, args)))
      <==> Innocent(profile)
  {
    hide Sequential, Simultaneous, Unnested, Bindings, ArgKey, Hole;
    if Innocent(profile) {
      BindingsQuiet(name, profile, args);
      forall tpl | Unnested(tpl)
        ensures Sequential(tpl, Bindings(name, profile, args)) == Simultaneous(tpl, Bindings(name, profile, args))
      {
        SequentialIsSimultaneous(tpl, Bindings(name, profile, args));
      }
    } else {
      var i: nat :| i < 6 && !Harmless(profile, ArgKey(i));
      var k :| 0 <= k < |profile| && profile[k] == '{' && !Apart(profile[k..], Hole(ArgKey(i)));
      var tpl := NotInnocent(name, profile, args, i, k);
    }
  }

  /** A brace whose next brace opens too starts no placeholder. */
  lemma NoHoleBeforeBrace(k: string, u: string, rest: string)
    requires Braceless(k) && Braceless(u) && rest != "" && rest[0] == '{'
    ensures !(Hole(k) <= ['{'] + (u + rest))
  {
    var s, h := ['{'] + (u + rest), Hole(k);
    assert forall j :: 0 <= j < |k| ==> h[j + 1] == k[j] && k[j] in k;
    assert forall j :: 0 <= j < |u| ==> s[j + 1] == u[j] && u[j] in u;
    assert h[|k| + 1] == '}' && s[|u| + 1] == '{';
    if |k| > |u| { assert h[|u| + 1] != s[|u| + 1]; } else { assert h[|k| + 1] != s[|k| + 1]; }
  }

  lemma {:induction false} NothingBeforeBrace(u: string, rest: string, bs: seq<Binding>)
    requires KeysPlain(bs) && Braceless(u) && rest != "" && rest[0] == '{'
    ensures AtFront(['{'] + (u + rest), bs) == None
  {
    if bs == [] {
    } else {
      assert bs[0] in bs;
      NoHoleBeforeBrace(bs[0].key, u, rest);
      NothingBeforeBrace(u, rest, bs[1..]);
    }
  }

  lemma ReplaceBehindBrace(u: string, rest: string, b: Binding)
    requires Braceless(b.key) && Braceless(u) && rest != "" && rest[0] == '{'
    ensures Replace(['{'] + (u + rest), Hole(b.key), b.value) == ['{'] + (u + Replace(rest, Hole(b.key), b.value))
  {
    NoHoleBeforeBrace(b.key, u, rest);
    ReplaceSkips(u, rest, Hole(b.key), b.value);
    assert (['{'] + (u + rest))[1..] == u + rest;
  }

  /** A hole inside braces that are no hole. */
  function Nested(u: string, inner: string): string { ['{'] + (u + (inner + "}")) }

  lemma NestedSequential(u: string, first: Binding, second: Binding, more: seq<Binding>)
    requires Braceless(u) && Braceless(first.key) && Braceless(second.key) && first.key != second.key
    ensures Sequential(Nested(u, Hole(second.key)), [first, second] + more) == Sequential(Nested(u, second.value), more)
  {
    var bs, rest := [first, second] + more, Hole(second.key) + "}";
    assert bs[1..][0] == second && bs[1..][1..] == more;
    assert rest[0] == '{';
    hide Replace, Hole;
    ReplaceBehindBrace(u, rest, first);
    ReplacePasses(second.key, "}", first.key, first.value);
    ReplaceNothing("}", first);
    ReplaceBehindBrace(u, rest, second);
    ReplaceHits("}", second.key, second.value);
    ReplaceNothing("}", second);
  }

  lemma NestedSimultaneous(u: string, first: Binding, second: Binding, more: seq<Binding>)
    requires Braceless(u) && KeysPlain([first, second] + more) && first.key != second.key
    ensures Simultaneous(Nested(u, Hole(second.key)), [first, second] + more) == Nested(u, second.value)
  {
    var bs, rest := [first, second] + more, Hole(second.key) + "}";
    assert rest[0] == '{';
    NothingBeforeBrace(u, rest, bs);
    OneChar('{', u + rest, bs);
    SimultaneousSkips(u, rest, bs);
    HoleSimultaneous("}", first, second, more);
  }

  lemma NestedIsNot(u: string, k: string)
    requires Braceless(u)
    ensures !Unnested(Nested(u, Hole(k)))
  {
    var s := Nested(u, Hole(k));
    assert s[1..|u| + 1] == u && s[|u| + 1] == '{';
    NextBraceAt(s, 1, |u| + 1);
  }

  lemma NestedLoses(u: string, first: Binding, second: Binding, more: seq<Binding>, b: Binding)
    requires Braceless(u) && KeysPlain([first, second] + more) && first.key != second.key
    requires (forall a | a in more :: '{' !in a.value) && b in more && Hole(b.key) == Nested(u, second.value)
    ensures var tpl, bs := Nested(u, Hole(second.key)), [first, second] + more;
      Sequential(tpl, bs) != Simultaneous(tpl, bs)
  {
    hide Sequential, Simultaneous, Nested, Hole;
    assert [first, second] + more == [first] + ([second] + more);
    assert first in [first, second] + more && second in [first, second] + more;
    NestedSequential(u, first, second, more);
    NestedSimultaneous(u, first, second, more);
    var h := Hole(b.key);
    assert h + "" == h && "" + h + "" == h;
    Loses(h, "", "", more, b);
  }

  lemma ArgHole(i: nat)
    ensures Nested("arg", Decimal.Text(i)) == Hole(ArgKey(i))
  {
    assert "{" == ['{'];
    assert "arg" + (Decimal.Text(i) + "}") == ArgKey(i) + "}";
  }

  /** The template counts too: where braces nest, an expansion can complete a placeholder, even if the
      profile name is a mere digit. */
  lemma NestedDiffers(name: string, args: seq<nat>, i: nat)
    requires |args| == 6 && '{' !in name && i < 6
    ensures var tpl, bs := Nested("arg", Hole("profile")), Bindings(name, Decimal.Text(i), args);
      !Unnested(tpl) && Innocent(Decimal.Text(i)) && Sequential(tpl, bs) != Simultaneous(tpl, bs)
  {
    TextDenotes(i);
    DigitsPlain(Decimal.Text(i));
    NestedIsNot("arg", "profile");
    ArgsPlain(args, 0);
    ArgHole(i);
    var n, p, more := Binding("name", name), Binding("profile", Decimal.Text(i)), ArgBindings(args, 0);
    assert n.key != p.key && KeysPlain([n, p] + more) && Braceless("arg");
    hide Sequential, Simultaneous, Unnested, Innocent, Nested, Hole, Bindings;
    NestedLoses("arg", n, p, more, more[i]);
  }

  /** `substitute` */
  method Substitute(tpl: string, name: string, profile: string, args: seq<nat>) returns (s: string)
    requires |args| == 6
    ensures s == Sequential(tpl, Bindings(name, profile, args))
    ensures s == Sequential(tpl, [
      Binding("name", name), Binding("profile", profile),
      Binding("arg0", Decimal.Text(args[0])), Binding("arg1", Decimal.Text(args[1])),
      Binding("arg2", Decimal.Text(args[2])), Binding("arg3", Decimal.Text(args[3])),
      Binding("arg4", Decimal.Text(args[4])), Binding("arg5", Decimal.Text(args[5]))])
    ensures Unnested(tpl) && '{' !in name && Innocent(profile) ==>
      s == Simultaneous(tpl, Bindings(name, profile, args))
  {
    BindingsExactly(name, profile, args);
    hide Unnested, Simultaneous, Replace, Innocent;
    ghost var bs := Bindings(name, profile, args);
    s := Replace(Replace(tpl, Hole("name"), name), Hole("profile"), profile);
    assert bs[1..][0] == bs[1] && bs[1..][1..] == bs[2..] == ArgBindings(args, 0);
    var i := 0;
    while i < |args|
      invariant 0 <= i <= |args|
      invariant Sequential(s, ArgBindings(args, i)) == Sequential(tpl, bs)
    {
      s := Replace(s, Hole(ArgKey(i)), Decimal.Text(args[i]));
      i := i + 1;
    }
    if Unnested(tpl) && '{' !in name && Innocent(profile) {
      BindingsQuiet(name, profile, args);
      SequentialIsSimultaneous(tpl, bs);
    }
  }
}
