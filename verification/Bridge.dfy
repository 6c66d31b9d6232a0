/** server/src/index.js: publishing a growing table to clients with a cursor. The bridge does this
    twice alike, for samples and for events; here is one such feed. Rows are known by their ids. */
module Bridge {
  import opened Wrappers

  const BACKFILL: nat := 50

  /** `rows`: the ids in the table, ascending. `nextId`: the id AUTOINCREMENT gives next. `last`: the
      cursor. `sent`: every id broadcast so far, in order. */
  datatype Feed = Feed(rows: seq<nat>, nextId: nat, last: nat, sent: seq<nat>)

  function MaxId(rows: seq<nat>): nat { if rows == [] then 0 else rows[|rows| - 1] }

  /** The rows that `WHERE id > ? ORDER BY id ASC` selects. */
  function Above(rows: seq<nat>, last: nat): seq<nat> {
    if rows == [] then []
    else if rows[0] > last then [rows[0]] + Above(rows[1..], last)
    else Above(rows[1..], last)
  }

  /** `ORDER BY id DESC LIMIT 50`, reversed. */
  function Tail(rows: seq<nat>): seq<nat> {
    if |rows| > BACKFILL then rows[|rows| - BACKFILL..] else rows
  }

  predicate Ascending(s: seq<nat>) { forall i, j :: 0 <= i < j < |s| ==> s[i] < s[j] }

  function Inserted(f: Feed): Feed { f.(rows := f.rows + [f.nextId], nextId := f.nextId + 1) }

  /** After a poll the cursor stands at the newest row it sent. */
  function Polled(f: Feed): Feed {
    var batch := Above(f.rows, f.last);
    f.(last := if batch == [] then f.last else MaxId(batch), sent := f.sent + batch)
  }

  function Cleared(f: Feed): Feed { f.(rows := [], last := 0) }

  class Publisher {
    var feed: Feed

    constructor (rows: seq<nat>, nextId: nat)
      ensures feed == Feed(rows, nextId, 0, [])
    {
      feed := Feed(rows, nextId, 0, []);
    }

    /** `init`: the cursor skips what is there already; if the query fails it stays where it was. The
        next poll then sends none of the rows that are there, and all that are inserted after. */
    method Init(ok: bool)
      modifies this
      ensures feed == old(feed).(last := if ok then MaxId(old(feed).rows) else old(feed).last)
      ensures ok && TableOk(feed.rows, feed.nextId) ==>
        forall later: seq<nat> :: (forall r | r in later :: r >= feed.nextId) ==>
          Above(feed.rows + later, feed.last) == later
    {
      if ok {
        feed := feed.(last := MaxId(feed.rows));
        if TableOk(feed.rows, feed.nextId) { OnlyLater(feed.rows, feed.nextId); }
      }
    }

    /** The polling step: each selected row is broadcast and moves the cursor. */
    method Poll()
      modifies this
      ensures feed == Polled(old(feed))
      ensures var batch := Above(old(feed).rows, old(feed).last);
        && feed.sent == old(feed).sent + batch && feed.rows == old(feed).rows && feed.nextId == old(feed).nextId
        && feed.last == if batch == [] then old(feed).last else batch[|batch| - 1]
    {
      var batch := Above(feed.rows, feed.last);
      for i := 0 to |batch|
        invariant feed == old(feed).(last := if i == 0 then old(feed).last else batch[i - 1],
                                     sent := old(feed).sent + batch[..i])
      {
        assert batch[..i + 1] == batch[..i] + [batch[i]];
        feed := feed.(sent := feed.sent + [batch[i]]);
        feed := feed.(last := batch[i]);
      }
      assert batch[..|batch|] == batch;
    }

    /** `clear_database`: the three deletes may stop half way, before or after the one of this table;
        only if all went through does the cursor go back to 0. Either way the next poll sends every row
        that is inserted after. */
    method Clear(deleted: bool, ok: bool)
      requires ok ==> deleted
      modifies this
      ensures ok ==> feed == Cleared(old(feed)) && feed == Feed([], old(feed).nextId, 0, old(feed).sent)
      ensures !ok ==> feed == if deleted then old(feed).(rows := []) else old(feed)
      ensures deleted && old(feed).last < old(feed).nextId ==>
        feed.rows == [] && forall later: seq<nat> :: (forall r | r in later :: r >= feed.nextId) ==>
          Above(later, feed.last) == later
    {
      if deleted { feed := feed.(rows := []); }
      if ok { feed := feed.(last := 0); }
      if deleted && feed.last < feed.nextId {
        forall later: seq<nat> | forall r | r in later :: r >= feed.nextId ensures Above(later, feed.last) == later {
          AllAbove(later, feed.last);
        }
      }
    }

    /** What a new client is sent at once: of an ascending table the newest rows, fifty or all there are,
        in order and without a gap. */
    method Connect() returns (backfill: seq<nat>)
      ensures |backfill| == if |feed.rows| < 50 then |feed.rows| else 50
      ensures backfill == feed.rows[|feed.rows| - |backfill|..]
      ensures Ascending(feed.rows) && backfill != [] ==>
        Ascending(backfill) && forall r :: r in backfill <==> r in feed.rows && r >= backfill[0]
    {
      backfill := if |feed.rows| > BACKFILL then feed.rows[|feed.rows| - BACKFILL..] else feed.rows;
      if Ascending(feed.rows) && backfill != [] { NewestRows(feed.rows, |feed.rows| - |backfill|); }
    }
  }

  lemma {:induction false} AllAbove(rows: seq<nat>, last: nat)
    requires forall r | r in rows :: r > last
    ensures Above(rows, last) == rows
  {
    if rows == [] {
    } else {
      assert rows[0] in rows && forall r | r in rows[1..] :: r in rows;
      AllAbove(rows[1..], last);
      assert rows == [rows[0]] + rows[1..];
    }
  }

  lemma {:induction false} NoneAbove(rows: seq<nat>, later: seq<nat>, last: nat)
    requires forall r | r in rows :: r <= last
    ensures Above(rows + later, last) == Above(later, last)
  {
    if rows == [] {
      assert rows + later == later;
    } else {
      assert rows[0] in rows && forall r | r in rows[1..] :: r in rows;
      NoneAbove(rows[1..], later, last);
      assert (rows + later)[0] == rows[0] && (rows + later)[1..] == rows[1..] + later;
    }
  }

  /** Above the newest row of a table there is only what comes later. */
  lemma OnlyLater(rows: seq<nat>, nextId: nat)
    requires TableOk(rows, nextId)
    ensures forall later: seq<nat> :: (forall r | r in later :: r >= nextId) ==>
      Above(rows + later, MaxId(rows)) == later
  {
    forall later: seq<nat> | forall r | r in later :: r >= nextId ensures Above(rows + later, MaxId(rows)) == later {
      forall r | r in rows ensures r <= MaxId(rows) { MaxIsLast(rows, r); }
      if rows != [] { MaxIsLast(rows, rows[0]); }
      NoneAbove(rows, later, MaxId(rows));
      AllAbove(later, MaxId(rows));
    }
  }

  /** From some place on an ascending table holds every row from the first one there. */
  lemma NewestRows(rows: seq<nat>, k: nat)
    requires Ascending(rows) && k < |rows|
    ensures Ascending(rows[k..]) && forall r :: r in rows[k..] <==> r in rows && r >= rows[k]
  {
    forall r | r in rows && r >= rows[k] ensures r in rows[k..] {
      var i :| 0 <= i < |rows| && rows[i] == r;
      assert rows[k..][i - k] == r;
    }
  }

  // ---------- runs ----------

  /** A client: what it was given on joining, how much had been broadcast by then, the id the next
      row was going to get, and where the cursor stood. */
  datatype Client = Client(backfill: seq<nat>, joined: nat, next: nat, cursor: nat)

  datatype State = State(feed: Feed, client: Option<Client>)

  datatype Act = Insert | Poll | Clear | ClearFails | Join

  function Next(s: State, a: Act): State {
    match a
    case Insert => s.(feed := Inserted(s.feed))
    case Poll => s.(feed := Polled(s.feed))
    case Clear => s.(feed := Cleared(s.feed))
    case ClearFails => s.(feed := s.feed.(rows := []))
    case Join =>
      if s.client.Some? then s
      else s.(client := Some(Client(Tail(s.feed.rows), |s.feed.sent|, s.feed.nextId, s.feed.last)))
  }

  /** The steps are the calls of the code: performed on the bridge, each leaves the feed that the step
      says, and a joining client is given what the step says. */
  method Perform(pub: Publisher, s: State, a: Act) returns (backfill: seq<nat>)
    requires pub.feed == s.feed
    modifies pub
    ensures pub.feed == Next(s, a).feed
    ensures a.Join? && s.client.None? ==> Next(s, a).client.value.backfill == backfill
  {
    backfill := [];
    match a
    case Insert => pub.feed := Inserted(pub.feed);
    case Poll => pub.Poll();
    case Clear => pub.Clear(true, true);
    case ClearFails => pub.Clear(true, false);
    case Join => backfill := pub.Connect();
  }

  /** The bridge at the beginning of a run. */
  method Open(rows: seq<nat>, nextId: nat, initOk: bool) returns (pub: Publisher)
    ensures fresh(pub) && pub.feed == Run(rows, nextId, initOk, []).feed
  {
    pub := new Publisher(rows, nextId);
    pub.Init(initOk);
  }

  /** The rows that will not be broadcast: those up to here were in the table when `init` ran. */
  function Skipped(rows: seq<nat>, initOk: bool): nat { if initOk then MaxId(rows) else 0 }

  /** A run from the moment the cursor is set: at the newest row, or at 0 if that failed. */
  function Run(rows: seq<nat>, nextId: nat, initOk: bool, acts: seq<Act>): State {
    if acts == [] then State(Feed(rows, nextId, Skipped(rows, initOk), []), None)
    else Next(Run(rows, nextId, initOk, acts[..|acts| - 1]), acts[|acts| - 1])
  }

  /** A table as AUTOINCREMENT leaves it. */
  predicate TableOk(rows: seq<nat>, nextId: nat) {
    Ascending(rows) && nextId > 0 && forall r | r in rows :: 0 < r < nextId
  }

  /** Everything the client has received. */
  function Received(s: State): seq<nat>
    requires s.client.Some? && s.client.value.joined <= |s.feed.sent|
  {
    s.client.value.backfill + s.feed.sent[s.client.value.joined..]
  }

  // ---------- what holds throughout ----------

  /** The cursor separates what was sent, or skipped at the start, from what is still to come. */
  ghost predicate Inv(f: Feed, skipped: nat) {
    && TableOk(f.rows, f.nextId)
    && Ascending(f.sent)
    && (forall x | x in f.sent :: x < f.nextId)
    && (forall r | r in f.rows && r > f.last :: forall x | x in f.sent :: x < r)
    && (forall r | r in f.rows && r <= f.last :: r in f.sent || r <= skipped)
    && (forall r | r in f.rows && r > f.last :: r > skipped)
    && (forall x | x in f.sent :: x > skipped)
    && f.last < f.nextId
    && skipped < f.nextId
  }

  /** In an ascending table the selected rows are the ones from some place on. */
  lemma {:induction false} AboveIsSuffix(rows: seq<nat>, last: nat) returns (k: nat)
    requires Ascending(rows)
    ensures k <= |rows| && Above(rows, last) == rows[k..]
    ensures forall i :: 0 <= i < |rows| ==> (rows[i] > last <==> i >= k)
  {
    if rows == [] { return 0; }
    var below := AboveIsSuffix(rows[1..], last);
    assert forall i :: 1 <= i < |rows| ==> rows[i] == rows[1..][i - 1];
    if rows[0] > last {
      assert |rows| > 1 ==> rows[1..][0] == rows[1];
      assert rows == [rows[0]] + rows[1..];
      k := 0;
    } else {
      assert rows[1..][below..] == rows[below + 1..];
      k := below + 1;
    }
  }

  lemma AboveSelects(rows: seq<nat>, last: nat)
    requires Ascending(rows)
    ensures Ascending(Above(rows, last))
    ensures forall r :: r in Above(rows, last) <==> r in rows && r > last
    ensures Above(rows, last) != [] ==> MaxId(Above(rows, last)) == MaxId(rows)
  {
    var k := AboveIsSuffix(rows, last);
  }

  lemma AscendingConcat(a: seq<nat>, b: seq<nat>)
    requires Ascending(a) && Ascending(b) && forall x, y :: x in a && y in b ==> x < y
    ensures Ascending(a + b)
  {
    forall i, j | 0 <= i < j < |a + b| ensures (a + b)[i] < (a + b)[j] {
      if i < |a| <= j { assert a[i] in a && b[j - |a|] in b; }
    }
  }

  lemma MaxIsLast(rows: seq<nat>, r: nat)
    requires Ascending(rows) && r in rows
    ensures r <= MaxId(rows) && MaxId(rows) in rows
  {
    var i :| 0 <= i < |rows| && rows[i] == r;
  }

  lemma InsertKeeps(f: Feed, skipped: nat)
    requires Inv(f, skipped)
    ensures Inv(Inserted(f), skipped)
  {
    AscendingConcat(f.rows, [f.nextId]);
  }

  lemma PollKeeps(f: Feed, skipped: nat)
    requires Inv(f, skipped)
    ensures Inv(Polled(f), skipped)
    ensures forall r | r in f.rows && r > skipped :: r in Polled(f).sent
  {
    AboveSelects(f.rows, f.last);
    var batch := Above(f.rows, f.last);
    AscendingConcat(f.sent, batch);
    forall r | r in f.rows ensures r <= Polled(f).last && (r in Polled(f).sent || r <= skipped) {
      MaxIsLast(f.rows, r);
    }
    if batch != [] { MaxIsLast(batch, batch[0]); }
  }

  /** What the client knows: everything still in the table that was there when it joined, from its
      start on, is in its backfill; and of those the rows up to the cursor had been broadcast before
      (or skipped at the start) while the rows above it had not. */
  ghost predicate ClientInv(s: State, skipped: nat) {
    s.client.Some? ==>
      var c := s.client.value;
      && c.joined <= |s.feed.sent|
      && Ascending(c.backfill)
      && skipped < c.next <= s.feed.nextId
      && (forall x | x in c.backfill :: x < c.next)
      && (forall x | x in s.feed.sent[..c.joined] :: x < c.next)
      && (forall r | r in s.feed.rows && r < c.next && Start(c) <= r :: r in c.backfill)
      && (forall r | r in s.feed.rows && r <= c.cursor :: r in s.feed.sent[..c.joined] || r <= skipped)
      && (forall r | r in s.feed.rows && r > c.cursor :: r !in s.feed.sent[..c.joined] && r > skipped)
      && c.cursor < c.next
  }

  /** Where the client's view starts: its first backfilled row, or the next row to come. */
  function Start(c: Client): nat { if c.backfill == [] then c.next else c.backfill[0] }

  lemma JoinKeeps(s: State, skipped: nat)
    requires Inv(s.feed, skipped) && s.client.None?
    ensures ClientInv(Next(s, Join), skipped)
  {
    var rows := s.feed.rows;
    var tail := Tail(rows);
    var c := Next(s, Join).client.value;
    assert s.feed.sent[..c.joined] == s.feed.sent;
    forall r | r in rows && Start(c) <= r ensures r in tail {
      var i :| 0 <= i < |rows| && rows[i] == r;
      if |rows| > BACKFILL {
        var k := |rows| - BACKFILL;
        assert tail[0] == rows[k];
        if i >= k { assert tail[i - k] == r; }
      }
    }
    forall x | x in tail ensures x in rows {
      var i :| 0 <= i < |tail| && tail[i] == x;
      assert x == rows[|rows| - |tail| + i];
    }
    assert Ascending(tail);
  }

  lemma {:induction false} RunKeeps(rows: seq<nat>, nextId: nat, initOk: bool, acts: seq<Act>)
    requires TableOk(rows, nextId)
    ensures var s := Run(rows, nextId, initOk, acts);
      Inv(s.feed, Skipped(rows, initOk)) && ClientInv(s, Skipped(rows, initOk))
    ensures Skipped(rows, initOk) < nextId
  {
    var skipped := Skipped(rows, initOk);
    if acts == [] {
      if rows == [] {
      } else {
        MaxIsLast(rows, rows[0]);
      }
      forall r | r in rows ensures r <= MaxId(rows) { MaxIsLast(rows, r); }
    } else {
      var n := |acts| - 1;
      RunKeeps(rows, nextId, initOk, acts[..n]);
      StepKeeps(Run(rows, nextId, initOk, acts[..n]), acts[n], skipped);
    }
  }

  lemma StepKeeps(s: State, a: Act, skipped: nat)
    requires Inv(s.feed, skipped) && ClientInv(s, skipped)
    ensures Inv(Next(s, a).feed, skipped) && ClientInv(Next(s, a), skipped)
  {
    match a
    case Insert => InsertKeeps(s.feed, skipped);
    case Poll =>
      PollKeeps(s.feed, skipped);
      if s.client.Some? {
        assert Next(s, a).feed.sent[..s.client.value.joined] == s.feed.sent[..s.client.value.joined];
      }
    case Join => if s.client.None? { JoinKeeps(s, skipped); }
    case _ =>
  }

  // ---------- delivery ----------

  function Count(s: seq<nat>, x: nat): nat { multiset(s)[x] }

  lemma {:induction false} AscendingCounts(s: seq<nat>, x: nat)
    requires Ascending(s)
    ensures Count(s, x) == if x in s then 1 else 0
  {
    if s == [] {
    } else {
      AscendingCounts(s[1..], x);
      assert s == [s[0]] + s[1..];
    }
  }

  /** Publication. Over any interleaving of inserts, polls, clears and joins, ids are broadcast in
      ascending order and none twice; and right after a poll the rows of the table that have been
      broadcast are exactly those newer than what `init` skipped. */
  lemma ExactlyOnce(rows: seq<nat>, nextId: nat, initOk: bool, acts: seq<Act>)
    requires TableOk(rows, nextId)
    ensures var s := Run(rows, nextId, initOk, acts);
      && Ascending(s.feed.sent)
      && (acts != [] && acts[|acts| - 1] == Poll ==>
            forall r | r in s.feed.rows ::
              Count(s.feed.sent, r) == if initOk && rows != [] && r <= rows[|rows| - 1] then 0 else 1)
  {
    RunKeeps(rows, nextId, initOk, acts);
    var s := Run(rows, nextId, initOk, acts);
    forall r | r in s.feed.rows ensures r > 0 { assert TableOk(s.feed.rows, s.feed.nextId); }
    forall x ensures Count(s.feed.sent, x) == if x in s.feed.sent then 1 else 0 { AscendingCounts(s.feed.sent, x); }
    if acts != [] && acts[|acts| - 1] == Poll {
      var before := Run(rows, nextId, initOk, acts[..|acts| - 1]);
      RunKeeps(rows, nextId, initOk, acts[..|acts| - 1]);
      PollKeeps(before.feed, Skipped(rows, initOk));
    }
  }

  /** Delivery. Right after a poll a client has received every row of the table from where its view
      starts: twice if the row was in its backfill and above the cursor when it joined (inserted but
      not yet polled), and otherwise exactly once. It never receives anything three times. */
  lemma ClientSeesAll(rows: seq<nat>, nextId: nat, initOk: bool, acts: seq<Act>)
    requires TableOk(rows, nextId) && Run(rows, nextId, initOk, acts).client.Some?
    ensures var s := Run(rows, nextId, initOk, acts);
      && s.client.value.joined <= |s.feed.sent|
      && (forall x :: Count(Received(s), x) <= 2)
      && (acts != [] && acts[|acts| - 1] == Poll ==>
            forall r | r in s.feed.rows &&
                (if s.client.value.backfill == [] then r >= s.client.value.next else r >= s.client.value.backfill[0]) ::
              Count(Received(s), r) == if r in s.client.value.backfill && r > s.client.value.cursor then 2 else 1)
  {
    RunKeeps(rows, nextId, initOk, acts);
    ExactlyOnce(rows, nextId, initOk, acts);
    var s := Run(rows, nextId, initOk, acts);
    var c := s.client.value;
    forall x ensures Count(Received(s), x)
                     == (if x in c.backfill then 1 else 0) + (if x in s.feed.sent[c.joined..] then 1 else 0) {
      AscendingCounts(c.backfill, x);
      AscendingCounts(s.feed.sent[c.joined..], x);
    }
    if acts != [] && acts[|acts| - 1] == Poll {
      forall r | r in s.feed.rows && r >= Start(c)
        ensures r in c.backfill <==> r < c.next
        ensures r in s.feed.sent[c.joined..] <==> r > c.cursor {
        AscendingCounts(s.feed.sent, r);
        SplitAscending(s.feed.sent, c.joined, r);
      }
    }
  }

  lemma SplitAscending(s: seq<nat>, n: nat, x: nat)
    requires Ascending(s) && n <= |s|
    ensures x in s[n..] <==> x in s && x !in s[..n]
  {
    if x in s {
      var i :| 0 <= i < |s| && s[i] == x;
      if i < n { assert s[..n][i] == x; } else { assert s[n..][i - n] == x; }
    }
  }

  /** A client that joins between an insert and the poll is told of the row twice. */
  lemma ToldTwice()
    ensures var s := Run([], 1, true, [Insert, Join, Poll]);
      s.client.Some? && s.client.value.joined <= |s.feed.sent| && Count(Received(s), 1) == 2
  {
    var acts := [Insert, Join, Poll];
    assert acts[..2][..1] == [Insert] && acts[..2] == [Insert, Join] && [Insert][..0] == [];
    assert Run([], 1, true, []) == State(Feed([], 1, 0, []), None);
    assert Run([], 1, true, [Insert]) == State(Feed([1], 2, 0, []), None);
    var joined := State(Feed([1], 2, 0, []), Some(Client([1], 0, 2, 0)));
    assert Run([], 1, true, [Insert, Join]) == joined;
    AllAbove([1], 0);
    assert Next(joined, Poll) == State(Feed([1], 2, 1, [1]), joined.client);
  }
}
