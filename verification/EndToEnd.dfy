/** From the bytes of a profile to the replies of the monitor, through the code of both sides. */
module EndToEnd {
  import opened JsonSpec
  import opened JsonHeap
  import JsonParser
  import R = JsonRoundTrip
  import S = Serde
  import opened Profile
  import opened Filter
  import opened Pipeline
  import opened EventLoop
  import opened Wrappers

  /** The file begins with the document `d`: behind blanks, and with nothing behind it that runs on from a
      number. */
  ghost predicate HoldsDocument(text: string, before: string, d: R.Doc) {
    && R.Blank(before) && R.Ok(d)
    && R.Stands(text, 0, before + R.Text(d)) && R.Ends(text, |before| + |R.Text(d)|, d)
  }

  /** The profile that profile.c sees in such a file. */
  function SeenIn(d: R.Doc, libc: Libc): ProfileDoc
    requires R.Ok(d)
  {
    CProfile(R.Means(d), libc)
  }

  /** `sb_profile_load` on such a file: unless an allocation is refused the table is the one of the profile
      that profile.c sees, and in either case nothing is left on the heap. */
  method LoadTable(heap: Heap, src: string, len: nat, name: string, libc: Libc, ghost before: string, ghost d: R.Doc)
    returns (ok: bool, table: Table)
    requires len < |src| && src[len] == '\0' && HoldsDocument(src[..len], before, d)
    modifies heap
    ensures heap.mem == old(heap.mem) && (ok <==> heap.refused == old(heap.refused))
    ensures fresh(table) && fresh(table.rules) && table.Valid()
    ensures ok ==> table.defaultAction == SeenIn(d, libc).default && table.Rules() == TableOf(SeenIn(d, libc), libc)
    ensures ok ==> DefaultFor(Get(R.Means(d), "default_action"), table.defaultAction)
  {
    hide R.Means, DefaultOf, DefaultFor, R.Stands, R.Text, Capped, AllRules, Resolved, Seen, Get;
    R.ReadsDocument(src[..len], before, d);
    SeenIsLoaded(ListOf(R.Means(d)), libc);
    NoRules(libc);
    table := new Table();
    var r, t := JsonParser.Parse(heap, src, len);
    if r == NULL { return false, table; }
    table.Load(heap, r, name, libc, t);
    JsonParser.Discard(heap, r, t, old(heap.mem));
    ok := true;
  }

  lemma NoRules(libc: Libc)
    ensures Capped(AllRules([], libc)) == []
  {
  }

  /** A file that the monitor loads begins with its document. */
  lemma LoadsHolds(text: string, before: string, d: R.Doc, after: string, m: ProfileDoc)
    requires S.Loads(text, before, d, after, m)
    ensures HoldsDocument(text, before, d)
  {
    hide R.Text, R.Ok, S.Strict, S.Utf8, S.ReadProfile;
    var t := R.Text(d);
    assert text == (before + t) + after;
    forall k | 0 <= k < |before + t| ensures text[k] == (before + t)[k] {}
    if after != "" { assert text[|before + t|] == after[0] && IsWs(after[0]); }
  }

  /** The two readers of one file that both load. Looked up by number in the one and by name in the other,
      they answer alike if and only if what they have seen is consistent; and they have seen the same if
      no string has a unicode escape other than that of `?`. */
  method LoadBoth(heap: Heap, src: string, len: nat, name: string, libc: Libc, m: ProfileDoc,
                  ghost before: string, ghost d: R.Doc, ghost after: string)
    returns (ok: bool, table: Table, policy: Policy)
    requires len < |src| && src[len] == '\0' && S.Loads(src[..len], before, d, after, m)
    modifies heap
    ensures heap.mem == old(heap.mem) && (ok <==> heap.refused == old(heap.refused))
    ensures table.Valid() && forall n :: policy.Find(n) == MonitorLookup(m, n)
    ensures ok ==> (Consistent(SeenIn(d, libc), m, libc) <==>
      forall n | libc.resolve(n).Some? ::
        Lookup(table.Rules(), table.defaultAction, libc.resolve(n).value) == policy.Find(n))
    ensures S.Plain(d) ==> Alike(SeenIn(d, libc), m)
  {
    hide S.Loads, HoldsDocument, Lookup, TableOf, Consistent, Alike, CProfile;
    LoadsHolds(src[..len], before, d, after, m);
    LoadsReads(src[..len], before, d, after, m);
    ok, table := LoadTable(heap, src, len, name, libc, before, d);
    policy := new Policy(m);
    ReadersAgreeExactly(SeenIn(d, libc), m, libc);
    if S.Plain(d) { S.PlainFilesReadAlike(d, m, libc); }
  }

  lemma LoadsReads(text: string, before: string, d: R.Doc, after: string, m: ProfileDoc)
    requires S.Loads(text, before, d, after, m)
    ensures R.Ok(d) && S.Strict(d) && S.ReadProfile(d) == Some(m)
  {
  }

  /** The table of the file has no number twice; libseccomp's way with a second rule is its own. */
  predicate Definite(d: R.Doc, libc: Libc)
    requires R.Ok(d)
  {
    DistinctNumbers(TableOf(SeenIn(d, libc), libc))
  }

  /** The kernel filter, installed or not, and the monitor's policy of one file. For a table without
      repeated numbers, such as that of a valid profile, the filter is installed if and only if it loads and
      the profile sends some call to the monitor; and between filter and policy a call comes to what the file
      means, as serde reads it, exactly when the answers of table and policy amount to that. For a valid
      profile without unicode escapes that is exactly when the answer under the monitor's name for the number
      agrees, which for named calls it does. */
  method Deploy(heap: Heap, src: string, len: nat, name: string, libc: Libc, missing: set<int>, loads: bool,
                m: ProfileDoc, ghost before: string, ghost d: R.Doc, ghost after: string)
    returns (ok: bool, installed: bool, ctx: Context, policy: Policy)
    requires len < |src| && src[len] == '\0' && S.Loads(src[..len], before, d, after, m)
    modifies heap
    ensures heap.mem == old(heap.mem) && (ok <==> heap.refused == old(heap.refused))
    ensures forall n :: policy.Find(n) == MonitorLookup(m, n)
    ensures ok && Definite(d, libc) ==> (installed <==> loads && Notifies(SeenIn(d, libc), libc, missing))
    ensures ok && Definite(d, libc) ==> forall nr | nr !in missing ::
      Exact(Decide(ctx.default, ctx.rules, nr), SeenIn(d, libc), m, libc, nr)
    ensures ok && S.Plain(d) && ValidDoc(m, libc) ==> Definite(d, libc)
    ensures ok && S.Plain(d) && ValidDoc(m, libc) ==> forall nr | nr !in missing ::
      Faithful(Decide(ctx.default, ctx.rules, nr), m, libc, nr)
  {
    hide S.Loads, HoldsDocument, Exact, Faithful, Decide, TableOf, CProfile, DistinctNumbers, ValidDoc, Alike;
    LoadsHolds(src[..len], before, d, after, m);
    LoadsReads(src[..len], before, d, after, m);
    var table;
    ok, table := LoadTable(heap, src, len, name, libc, before, d);
    ghost var c := SeenIn(d, libc);
    forall nr | nr !in missing ensures Exact(FilterVerdict(c, libc, missing, nr), c, m, libc, nr) {
      FilterExact(c, m, libc, missing, nr);
    }
    if S.Plain(d) && ValidDoc(m, libc) {
      S.PlainFilesReadAlike(d, m, libc);
      AlikeTable(c, m, libc);
      forall nr | nr !in missing ensures Faithful(FilterVerdict(c, libc, missing, nr), m, libc, nr) {
        FilterFaithful(c, m, libc, missing, nr);
      }
    }
    installed, ctx := Install(table, missing, loads);
    policy := new Policy(m);
    if ok && Definite(d, libc) {
      assert forall nr :: Decide(ctx.default, ctx.rules, nr) == FilterVerdict(c, libc, missing, nr);
    }
  }

  lemma AlikeTable(c: ProfileDoc, m: ProfileDoc, libc: Libc)
    requires Alike(c, m) && ValidDoc(m, libc)
    ensures DistinctNumbers(TableOf(c, libc))
  {
    AlikeValid(c, m, libc);
    hide Alike, ValidDoc, TableOf, DistinctNumbers;
    ValidTable(c, libc, 0);
  }

  // ---------- the replies ----------

  /** What the call behind the effects at `i` came to, and whether it was audited. */
  function CameTo(trace: seq<Effect>, i: nat): (Outcome, bool)
    requires i + 2 < |trace| && trace[i + 2].Replied?
  {
    (Answered(trace[i + 2].resp, i + 3 < |trace| && trace[i + 3].Killed?), trace[i + 1].Audited?)
  }

  /** Replied to under its own id, and come to what the file means. */
  ghost predicate Served(trace: seq<Effect>, i: nat, m: ProfileDoc, libc: Libc)
    requires i < |trace| && trace[i].Received?
  {
    var (a, e) := Effective(m, libc, trace[i].n.nr);
    && i + 2 < |trace| && trace[i + 2].Replied? && trace[i + 2].id == trace[i].n.id
    && CameTo(trace, i) == Meant(a, e)
  }

  /** The filter sends the call to the monitor. */
  predicate SentToMonitor(ctx: Context, missing: set<int>, nr: int)
    reads ctx
  {
    nr !in missing && Decide(ctx.default, ctx.rules, nr).VNotify?
  }

  lemma HandledIsPiped(trace: seq<Effect>, i: nat, m: ProfileDoc, n: Notif)
    requires Handles(trace, i, m, n)
    ensures i + 2 < |trace| && trace[i + 2].Replied? && trace[i + 2].id == n.id
    ensures CameTo(trace, i) == Piped(VNotify, m, n.nr)
  {
    hide Answer, MonitorLookup, SyscallName, Answered;
  }

  /** Exactly when a notification is served. */
  ghost predicate ServedExactly(trace: seq<Effect>, i: nat, c: ProfileDoc, m: ProfileDoc, libc: Libc)
    requires i < |trace| && trace[i].Received?
  {
    var nr := trace[i].n.nr;
    Served(trace, i, m, libc) <==>
    Realised(TableAnswer(c, libc, nr), MonitorLookup(m, SyscallName(nr)), Effective(m, libc, nr))
  }

  ghost predicate ServedFaithfully(trace: seq<Effect>, i: nat, m: ProfileDoc, libc: Libc)
    requires i < |trace| && trace[i].Received?
  {
    var nr := trace[i].n.nr;
    var (f, g) := MonitorLookup(m, SyscallName(nr));
    && (Served(trace, i, m, libc) <==> FallbackAgrees(Effective(m, libc, nr).0, f, g))
    && (Named(m, libc, nr) ==> Served(trace, i, m, libc))
  }

  /** From the bytes to the replies, whatever rounds the monitor's loop meets: a notification that the filter
      sends is answered under its own id, audited, and comes to what the file means, as serde reads it,
      exactly when the answers of table and policy amount to that; and for a valid profile without unicode
      escapes exactly when the answer under the monitor's name agrees, which for named calls it does. */
  method Supervise(heap: Heap, src: string, len: nat, name: string, libc: Libc, missing: set<int>, loads: bool,
                   m: ProfileDoc, script: seq<Poll>, ghost before: string, ghost d: R.Doc, ghost after: string)
    returns (ok: bool, installed: bool, ctx: Context, trace: seq<Effect>)
    requires len < |src| && src[len] == '\0' && S.Loads(src[..len], before, d, after, m)
    modifies heap
    ensures heap.mem == old(heap.mem) && (ok <==> heap.refused == old(heap.refused))
    ensures ok && Definite(d, libc) ==> (installed <==> loads && Notifies(SeenIn(d, libc), libc, missing))
    ensures Taken(trace) == Delivered(script)
    ensures ok && Definite(d, libc) ==>
      forall i | 0 <= i < |trace| && trace[i].Received? && SentToMonitor(ctx, missing, trace[i].n.nr) ::
        ServedExactly(trace, i, SeenIn(d, libc), m, libc)
    ensures ok && S.Plain(d) && ValidDoc(m, libc) ==>
      forall i | 0 <= i < |trace| && trace[i].Received? && SentToMonitor(ctx, missing, trace[i].n.nr) ::
        ServedFaithfully(trace, i, m, libc)
  {
    hide S.Loads, ValidDoc, Decide, Exact, Faithful, TableOf, CProfile, DistinctNumbers, Notifies;
    var policy;
    ok, installed, ctx, policy := Deploy(heap, src, len, name, libc, missing, loads, m, before, d, after);
    trace := Loop(policy, script, m);
    if ok {
      LoadsReads(src[..len], before, d, after, m);
      ghost var c := SeenIn(d, libc);
      forall i | 0 <= i < |trace| && trace[i].Received? && SentToMonitor(ctx, missing, trace[i].n.nr)
        ensures Definite(d, libc) ==> ServedExactly(trace, i, c, m, libc)
        ensures S.Plain(d) && ValidDoc(m, libc) ==> ServedFaithfully(trace, i, m, libc)
      {
        var v := Decide(ctx.default, ctx.rules, trace[i].n.nr);
        TakenOff(trace, m, i);
        if Definite(d, libc) { ServedAsExact(trace, i, c, m, libc, v); }
        if S.Plain(d) && ValidDoc(m, libc) { ServedAsFaithful(trace, i, m, libc, v); }
      }
    }
  }

  lemma TakenOff(trace: seq<Effect>, m: ProfileDoc, i: nat)
    requires Disciplined(trace, m) && i < |trace| && trace[i].Received?
    ensures Handles(trace, i, m, trace[i].n)
  {
  }

  lemma ServedAsExact(trace: seq<Effect>, i: nat, c: ProfileDoc, m: ProfileDoc, libc: Libc, v: Verdict)
    requires i < |trace| && trace[i].Received? && Handles(trace, i, m, trace[i].n)
    requires v.VNotify? && Exact(v, c, m, libc, trace[i].n.nr)
    ensures ServedExactly(trace, i, c, m, libc)
  {
    HandledIsPiped(trace, i, m, trace[i].n);
    hide Realised, SyscallName, MonitorLookup, Effective, Piped, Meant, TableAnswer;
  }

  lemma ServedAsFaithful(trace: seq<Effect>, i: nat, m: ProfileDoc, libc: Libc, v: Verdict)
    requires i < |trace| && trace[i].Received? && Handles(trace, i, m, trace[i].n)
    requires v.VNotify? && Faithful(v, m, libc, trace[i].n.nr)
    ensures ServedFaithfully(trace, i, m, libc)
  {
    HandledIsPiped(trace, i, m, trace[i].n);
    hide Named, FallbackAgrees, SyscallName, MonitorLookup, Effective, Piped, Meant;
  }
}
