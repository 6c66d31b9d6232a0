/** json_lite.c: the recursive-descent reader over a NUL-terminated byte buffer.

    Every `Parse` method is proved against the function of the same name in `JsonSpec`, for all
    inputs and all patterns of allocation failures: a tree comes back exactly when the text is
    accepted and no allocation was refused; the live blocks then grow by exactly the blocks of
    that tree, and otherwise they are what they were. The cursor never goes back and never passes
    `end`. */
module JsonParser {
  import opened Decimal
  import opened JsonSpec
  import opened JsonHeap
  import opened Wrappers

  // ---------- the string decoder ----------

  /** The number of pass-one tokens ahead never grows as the start moves forward, even to a
      place where pass one did not stop, and one character costs at most one token. */
  lemma {:induction false} TokensShrink(s: string, i: nat, q: nat)
    requires i < q < |s|
    ensures Tokens(s, i + 1, q) <= Tokens(s, i, q) <= Tokens(s, i + 1, q) + 1
    decreases q - i
  {
    if i + 1 == q {
    } else {
      TokensShrink(s, i + 1, q);
    }
  }

  lemma {:induction false} TokensMonotone(s: string, i: nat, j: nat, q: nat)
    requires i <= j && q < |s|
    ensures Tokens(s, j, q) <= Tokens(s, i, q)
    decreases j - i
  {
    if i == j {
    } else {
      if i < q { TokensShrink(s, i, q); }
      TokensMonotone(s, i + 1, j, q);
    }
  }

  /** What pass two writes fits the buffer that pass one sized. */
  lemma {:induction false} DecodeFits(s: string, p: nat, q: nat)
    requires q < |s|
    ensures |Decode(s, p, q)| <= Tokens(s, p, q)
    decreases q - p
  {
    if p >= q {
    } else {
      var w := if s[p] == '\\' then EscapeWidth(s[p + 1]) else 1;
      DecodeFits(s, p + w, q);
      TokensMonotone(s, p + Stride(s, p), p + w, q);
    }
  }

  /** One round of pass two. */
  lemma DecodeStep(s: string, p: nat, q: nat)
    requires p < q < |s|
    ensures var d := Decode(s, p, q);
      var w := if s[p] == '\\' then EscapeWidth(s[p + 1]) else 1;
      d != "" && d[0] == (if s[p] == '\\' then Unescape(s[p + 1]) else s[p]) && d[1..] == Decode(s, p + w, q)
  {
  }

  // ---------- strtod on a NUL-terminated buffer ----------

  lemma {:induction false} DigitsStopAtNul(t: string, n: nat, p: nat)
    requires p <= n < |t| && t[n] == '\0'
    ensures DigitsEnd(t, p) == DigitsEnd(t[..n], p) <= n
    decreases n - p
  {
    if p == n || !IsDigit(t[p]) {
    } else {
      DigitsStopAtNul(t, n, p + 1);
    }
  }

  lemma FracStopsAtNul(t: string, n: nat, p: nat)
    requires p <= n < |t| && t[n] == '\0'
    ensures FracEnd(t, p) == FracEnd(t[..n], p) <= n
  {
    if p < n && t[p] == '.' { DigitsStopAtNul(t, n, p + 1); }
  }

  lemma PowerStopsAtNul(t: string, n: nat, p: nat)
    requires p < n < |t| && t[n] == '\0'
    ensures PowerEnd(t, p) == PowerEnd(t[..n], p) <= n
  {
    DigitsStopAtNul(t, n, p + 1);
    if p + 1 < n { DigitsStopAtNul(t, n, p + 2); }
  }

  lemma DecimalStopsAtNul(t: string, n: nat, p: nat, a: nat)
    requires p <= a <= n < |t| && t[n] == '\0'
    ensures DecimalEnd(t, p, a) == DecimalEnd(t[..n], p, a) <= n
  {
    DigitsStopAtNul(t, n, a);
    FracStopsAtNul(t, n, DigitsEnd(t, a));
    var c := FracEnd(t, DigitsEnd(t, a));
    if c < n { PowerStopsAtNul(t, n, c); }
  }

  lemma {:induction false} HexStopsAtNul(t: string, n: nat, p: nat)
    requires p <= n < |t| && t[n] == '\0'
    ensures HexEnd(t, p) == HexEnd(t[..n], p) <= n
    decreases n - p
  {
    if p == n || !IsHex(t[p]) {
    } else {
      HexStopsAtNul(t, n, p + 1);
    }
  }

  lemma HexFracStopsAtNul(t: string, n: nat, p: nat)
    requires p <= n < |t| && t[n] == '\0'
    ensures HexFracEnd(t, p) == HexFracEnd(t[..n], p) <= n
  {
    HexStopsAtNul(t, n, p);
    var b := HexEnd(t, p);
    if b < n { HexStopsAtNul(t, n, b + 1); }
  }

  lemma HexNumberStopsAtNul(t: string, n: nat, a: nat)
    requires a <= n < |t| && t[n] == '\0'
    ensures HexAt(t, a) <==> HexAt(t[..n], a)
    ensures HexAt(t, a) ==> HexNumberEnd(t, a) == HexNumberEnd(t[..n], a) <= n
  {
    hide HexFracEnd, HexEnd, PowerEnd;
    if a + 2 <= n {
      HexStopsAtNul(t, n, a + 2);
      HexFracStopsAtNul(t, n, a + 2);
      var c := HexFracEnd(t, a + 2);
      if c < n { PowerStopsAtNul(t, n, c); }
    }
  }

  lemma WordStopsAtNul(t: string, n: nat, a: nat, w: string)
    requires a <= n < |t| && t[n] == '\0' && '\0' !in w
    ensures WordAt(t, a, w) <==> WordAt(t[..n], a, w)
  {
    if a + |w| > n {
      var i := n - a;
      assert w[i] in w && Lower(t[a + i]) != w[i];
    }
  }

  lemma {:induction false} TagStopsAtNul(t: string, n: nat, p: nat)
    requires p <= n < |t| && t[n] == '\0'
    ensures TagEnd(t, p) == TagEnd(t[..n], p) <= n
    decreases n - p
  {
    if p == n || !IsTagChar(t[p]) {
    } else {
      TagStopsAtNul(t, n, p + 1);
    }
  }

  lemma NanStopsAtNul(t: string, n: nat, p: nat)
    requires p <= n < |t| && t[n] == '\0'
    ensures NanEnd(t, p) == NanEnd(t[..n], p) <= n
  {
    if p < n { TagStopsAtNul(t, n, p + 1); }
  }

  /** The terminator keeps `strtod` and `strtoll` inside the text. */
  lemma NumberStopsAtNul(t: string, n: nat, p: nat)
    requires p < n < |t| && t[n] == '\0'
    ensures StrtodEnd(t, p) == StrtodEnd(t[..n], p) <= n
    ensures StrtollEnd(t, p) == StrtollEnd(t[..n], p)
    ensures Strtoll(t, p) == Strtoll(t[..n], p)
  {
    hide WordAt, HexAt, HexNumberEnd, NanEnd, DecimalEnd;
    var a := SignEnd(t, p);
    DigitsStopAtNul(t, n, a);
    assert t[a..DigitsEnd(t, a)] == t[..n][a..DigitsEnd(t, a)];
    WordStopsAtNul(t, n, a, "infinity");
    WordStopsAtNul(t, n, a, "inf");
    WordStopsAtNul(t, n, a, "nan");
    WordFits(t[..n], a, "infinity");
    WordFits(t[..n], a, "inf");
    WordFits(t[..n], a, "nan");
    if WordAt(t, a, "nan") { NanStopsAtNul(t, n, a + 3); }
    HexNumberStopsAtNul(t, n, a);
    DecimalStopsAtNul(t, n, p, a);
  }

  lemma WordFits(s: string, p: nat, w: string)
    ensures WordAt(s, p, w) ==> p + |w| <= |s|
  {
  }

  // ---------- lists that grow at the tail ----------

  /** Linking a fresh node behind the last one, and moving `last`, appends it to the list. */
  lemma AppendCells(kids: seq<Located>, x: Located)
    requires SeparateAll(kids) && Separate(x) && AddrsAll(kids) !! Addrs(x)
    requires Shaped(x) && forall k | k in kids :: Shaped(k)
    ensures (kids + [x])[..|kids|] == kids
    ensures SeparateAll(kids + [x]) && AddrsAll(kids + [x]) == AddrsAll(kids) + Addrs(x)
    ensures CellsAll(kids + [x], NULL) == CellsAll(kids, x.addr) + Cells(x, NULL)
    ensures kids != [] ==>
      var m := CellsAll(kids, NULL);
      First(kids) != NULL && Last(kids) in AddrsAll(kids) && m[Last(kids)].Node? &&
      CellsAll(kids, x.addr) == m[Last(kids) := m[Last(kids)].(next := x.addr)]
  {
    var all := kids + [x];
    assert all[..|all| - 1] == kids;
    if kids != [] {
      RelinkLast(kids, x.addr);
      PartOfList(kids, 0, NULL);
      PartOfList(kids, |kids| - 1, NULL);
    }
  }

  /** `now` is `before` plus exactly the blocks of the tree `t`. */
  ghost predicate Grew(before: Mem, now: Mem, t: Located) {
    Shaped(t) && Separate(t) && Addrs(t) !! before.Keys && now == before + Cells(t, NULL)
  }

  /** How every reader of a tree ends: with the tree at `r` when the text is `good` and no
      allocation was `refused`, else with NULL and the memory as it was. */
  ghost predicate Ended(before: Mem, now: Mem, refused: bool, good: bool, r: Addr, t: Located) {
    (r != NULL <==> good && !refused) &&
    (r == NULL ==> now == before) &&
    (r != NULL ==> t.addr == r && Shaped(t) && Grew(before, now, t))
  }

  /** Gives back a tree that was just built. */
  method Discard(heap: Heap, n: Addr, ghost t: Located, ghost before: Mem)
    requires n == t.addr && Grew(before, heap.mem, t)
    modifies heap`mem
    ensures heap.mem == before
  {
    heap.FreeTree(n, t, NULL);
  }

  /** The list code that `jp__parse_object` and `jp__parse_array` share: hangs `child` behind the
      last node. */
  method Link(heap: Heap, list: Addr, child: Addr)
    requires list in heap.mem && heap.mem[list].Node? && heap.mem[list].u.UList?
    requires var u := heap.mem[list].u;
      u.first != NULL ==> u.last in heap.mem && u.last != list && heap.mem[u.last].Node?
    modifies heap`mem
    ensures var b := old(heap.mem)[list];
      heap.mem == if b.u.first == NULL
        then old(heap.mem)[list := b.(u := UList(child, child))]
        else old(heap.mem)[b.u.last := old(heap.mem)[b.u.last].(next := child)]
                          [list := b.(u := UList(b.u.first, child))]
  {
    var u := heap.mem[list].u;
    if u.first == NULL {
      heap.Store(list, heap.mem[list].(u := u.(first := child)));
    } else {
      heap.Store(u.last, heap.mem[u.last].(next := child));
    }
    heap.Store(list, heap.mem[list].(u := heap.mem[list].u.(last := child)));
  }

  /** The memory that `Link` leaves, given a list block `b` at `list`, the cells `k` of its
      children, the last of them at `l`, and the cells `x` of the new child. */
  lemma LinkedCells(before: Mem, list: Addr, b: Block, b': Block, k: Mem, l: Addr, n: Block, x: Mem)
    requires list !in k && list !in x && l in k && k.Keys !! x.Keys
    ensures var now := (before + k[list := b]) + x;
      now[list] == b && now[l] == k[l] && now[l := n][list := b'] == before + (k[l := n] + x)[list := b']
  {
  }

  lemma EmptyList(before: Mem, t: Located, now: Mem)
    requires t == LObj(t.addr, []) || t == LArr(t.addr, [])
    requires t.addr != NULL && t.addr !in before
    requires now == before[t.addr := Node(if t.LObj? then KObject else KArray, NULL, UList(NULL, NULL))]
    ensures Grew(before, now, t)
  {
    assert AddrsAll([]) == {} && CellsAll([], NULL) == map[];
  }

  /** The root block of a list. */
  function ListBlock(kind: Kind, kids: seq<Located>): Block { Node(kind, NULL, UList(First(kids), Last(kids))) }

  /** Behind what stood there, the list at `list` with these children. */
  ghost predicate Listed(before: Mem, now: Mem, kind: Kind, list: Addr, kids: seq<Located>) {
    && (forall k | k in kids :: Shaped(k)) && SeparateAll(kids)
    && list != NULL && list !in AddrsAll(kids) && {list} + AddrsAll(kids) !! before.Keys
    && now == before + CellsAll(kids, NULL)[list := ListBlock(kind, kids)]
  }

  /** One more child for either kind of list. */
  method AppendChild(heap: Heap, list: Addr, child: Addr, ghost before: Mem, ghost between: Mem,
                     ghost kind: Kind, ghost kids: seq<Located>, ghost x: Located)
    requires x.addr == child
    requires Listed(before, between, kind, list, kids) && Grew(between, heap.mem, x)
    modifies heap`mem
    ensures Listed(before, heap.mem, kind, list, kids + [x])
  {
    AppendCells(kids, x);
    ghost var k, l := CellsAll(kids, NULL), Last(kids);
    ghost var b := ListBlock(kind, kids);
    if kids != [] {
      LinkedCells(before, list, b, b.(u := UList(First(kids), child)), k, l, k[l].(next := child), Cells(x, NULL));
    }
    Link(heap, list, child);
  }

  lemma ListedObject(before: Mem, now: Mem, o: Addr, kids: seq<Located>)
    requires forall k | k in kids :: Shaped(k) && k.LKey?
    ensures Shaped(LObj(o, kids)) && (Listed(before, now, KObject, o, kids) <==> Grew(before, now, LObj(o, kids)))
  {
  }

  lemma ListedArray(before: Mem, now: Mem, a: Addr, kids: seq<Located>)
    requires forall k | k in kids :: Shaped(k) && !k.LKey?
    ensures Shaped(LArr(a, kids)) && (Listed(before, now, KArray, a, kids) <==> Grew(before, now, LArr(a, kids)))
  {
  }

  method AppendMember(heap: Heap, o: Addr, child: Addr,
                      ghost before: Mem, ghost between: Mem, ghost kids: seq<Located>, ghost x: Located)
    requires x.LKey? && x.addr == child
    requires Grew(before, between, LObj(o, kids)) && Grew(between, heap.mem, x)
    modifies heap`mem
    ensures Shaped(LObj(o, kids + [x])) && Grew(before, heap.mem, LObj(o, kids + [x]))
    ensures EraseMembers(kids + [x]) == EraseMembers(kids) + [Member(x.name, Erase(x.value))]
  {
    assert (kids + [x])[..|kids|] == kids;
    ListedObject(before, between, o, kids);
    AppendChild(heap, o, child, before, between, KObject, kids, x);
    ListedObject(before, heap.mem, o, kids + [x]);
  }

  method AppendElem(heap: Heap, a: Addr, child: Addr,
                    ghost before: Mem, ghost between: Mem, ghost kids: seq<Located>, ghost x: Located)
    requires !x.LKey? && x.addr == child
    requires Grew(before, between, LArr(a, kids)) && Grew(between, heap.mem, x)
    modifies heap`mem
    ensures Shaped(LArr(a, kids + [x])) && Grew(before, heap.mem, LArr(a, kids + [x]))
    ensures EraseElems(kids + [x]) == EraseElems(kids) + [Erase(x)]
  {
    assert (kids + [x])[..|kids|] == kids;
    ListedArray(before, between, a, kids);
    AppendChild(heap, a, child, before, between, KArray, kids, x);
    ListedArray(before, heap.mem, a, kids + [x]);
  }

  lemma KeyNode(before: Mem, after: Mem, name: Block, v: Located, t: Located)
    requires t.LKey? && t.value == v && name == Chars(t.size, t.name) && |t.name| < t.size
    requires t.buf != NULL && t.buf !in before && t.addr != NULL && t.addr !in after
    requires Grew(before[t.buf := name], after, v) && !v.LKey?
    ensures Shaped(t) && Grew(before, after[t.addr := Node(KKey, NULL, UKey(t.buf, v.addr))], t)
  {
  }

  /** Gives back a key and its value when the node for them could not be had. */
  method DropPair(heap: Heap, key: Addr, val: Addr, ghost v: Located, ghost before: Mem, ghost name: Block)
    requires key !in before && val == v.addr && Grew(before[key := name], heap.mem, v)
    modifies heap`mem
    ensures heap.mem == before
  {
    heap.Free(key);
    heap.FreeTree(val, v, NULL);
  }

  class Parser {
    const src: string
    const end: nat
    const heap: Heap
    var p: nat

    /** The text that is parsed; the buffer goes on with a terminator. */
    ghost const text: string

    ghost predicate Valid()
      reads this
    {
      p <= end < |src| && text == src[..end] && src[end] == '\0'
    }

    constructor (src: string, len: nat, heap: Heap)
      requires len < |src| && src[len] == '\0'
      ensures Valid() && text == src[..len] && this.heap == heap && p == 0
    {
      this.src, end, this.heap, p, text := src, len, heap, 0, src[..len];
    }

    /** The byte at `i`. Except for the number readers, nothing at or behind `end` is ever read. */
    function Byte(i: nat): char
      requires i < end < |src|
    {
      src[i]
    }

    /** `jp__skip_ws` */
    method SkipBlanks()
      requires Valid()
      modifies `p
      ensures Valid() && p == SkipWs(text, old(p))
    {
      while p < end && IsWs(Byte(p))
        invariant Valid() && SkipWs(text, p) == SkipWs(text, old(p))
        decreases end - p
      {
        p := p + 1;
      }
    }

    /** Pass one of `jp__parse_string`: finds the closing quote and counts tokens. */
    method Measure() returns (q: nat, worst: nat)
      requires Valid()
      ensures q == Scan(text, p) <= end
      ensures q < end ==> worst == Tokens(text, p, q)
    {
      ghost var stop := Scan(text, p);
      q, worst := p, 0;
      while q < end && Byte(q) != '"'
        invariant p <= q <= end && Scan(text, q) == stop
        invariant stop < end ==> worst + Tokens(text, q, stop) == Tokens(text, p, stop)
        decreases end - q
      {
        q := if Byte(q) == '\\' && q + 1 < end then q + 2 else q + 1;
        worst := worst + 1;
      }
    }

    /** Pass two of `jp__parse_string`: fills `out` in place. The writes `out[oi]`, terminator
        included, stay inside the `worst + 1` bytes of the buffer; the reads stay below `end`. */
    method Fill(q: nat, out: array<char>) returns (oi: nat)
      requires Valid() && p <= q < end
      requires out.Length == Tokens(text, p, q) + 1
      modifies `p, out
      ensures oi < out.Length && out[..oi] == Decode(text, old(p), q) && out[oi] == '\0'
    {
      ghost var goal := Decode(text, p, q);
      DecodeFits(text, p, q);
      oi := 0;
      while p < q
        invariant oi <= |goal| && Decode(text, p, q) == goal[oi..]
        invariant forall k :: 0 <= k < oi ==> out[k] == goal[k]
        decreases q - p
      {
        DecodeStep(text, p, q);
        var c := Byte(p);
        p := p + 1;
        if c == '\\' {
          var e := Byte(p);
          p := p + 1;
          if e == 'u' { p := p + 4; }
          out[oi] := Unescape(e);
        } else {
          out[oi] := c;
        }
        oi := oi + 1;
      }
      out[oi] := '\0';
    }

    /** `jp__parse_string` */
    method ParseString() returns (r: Addr, ghost size: nat)
      requires Valid()
      modifies `p, heap
      ensures Valid() && old(p) <= p
      ensures r != NULL <==> String(text, old(p)).Good? && heap.refused == old(heap.refused)
      ensures heap.refused >= old(heap.refused)
      ensures r == NULL ==> heap.mem == old(heap.mem)
      ensures r != NULL ==> p == String(text, old(p)).pos && r !in old(heap.mem)
      ensures r != NULL ==>
        var str := String(text, old(p)).value;
        |str| < size && heap.mem == old(heap.mem)[r := Chars(size, str)]
    {
      if p >= end || Byte(p) != '"' { return NULL, 0; }
      p := p + 1;
      var q, worst := Measure();
      if q >= end { return NULL, 0; }
      r := heap.Alloc(Chars(worst + 1, ""));
      if r == NULL { return NULL, 0; }
      var out := new char[worst + 1];
      var oi := Fill(q, out);
      heap.Store(r, Chars(worst + 1, out[..oi]));
      p := q + 1;
      size := worst + 1;
    }

    /** `jp__node`: a zeroed node of the given kind. */
    method NewNode(kind: Kind, u: Union) returns (n: Addr)
      modifies heap
      ensures n == NULL ==> heap.mem == old(heap.mem) && heap.refused == old(heap.refused) + 1
      ensures n != NULL ==> n !in old(heap.mem) && heap.refused == old(heap.refused)
      ensures n != NULL ==> heap.mem == old(heap.mem)[n := Node(kind, NULL, u)]
    {
      n := heap.Alloc(Node(kind, NULL, u));
    }

    /** `jp__parse_number`: `strtod` and `strtoll` run over the whole buffer. */
    method ParseNumber() returns (r: Addr, ghost t: Located)
      requires Valid() && p < end
      modifies `p, heap
      ensures Valid() && old(p) <= p && heap.refused >= old(heap.refused)
      ensures Ended(old(heap.mem), heap.mem, heap.refused != old(heap.refused), Number(text, old(p)).Good?, r, t)
      ensures r != NULL ==> !t.LKey? && Number(text, old(p)) == Good(Erase(t), p)
    {
      NumberStopsAtNul(src, end, p);
      t := LScalar(NULL, Null);
      var e1 := StrtodEnd(src, p);
      if e1 == p { return NULL, t; }
      var ll := Strtoll(src, p);
      var e2 := StrtollEnd(src, p);
      if e1 == e2 {
        r := NewNode(KInt, UInt(ll));
        t := LScalar(r, Int(ll));
      } else {
        r := NewNode(KNum, UNum(src[p..e1]));
        t := LScalar(r, Num(src[p..e1]));
        assert src[p..e1] == text[p..e1];
      }
      if r == NULL { return; }
      p := e1;
    }

    /** The head of the loop in `jp__parse_object`: key, colon, value and the KEY node that holds
        them, or NULL after giving all of it back. */
    method ParsePair() returns (r: Addr, ghost t: Located)
      requires Valid()
      modifies `p, heap
      ensures Valid() && old(p) <= p && heap.refused >= old(heap.refused)
      ensures Ended(old(heap.mem), heap.mem, heap.refused != old(heap.refused), Pair(text, old(p)).Good?, r, t)
      ensures r != NULL ==> t.LKey? && Pair(text, old(p)) == Good(Member(t.name, Erase(t.value)), p)
      decreases end - p, 2
    {
      hide Grew, Value, String, SkipWs;
      ghost var before := heap.mem;
      t := LScalar(NULL, Null);
      SkipBlanks();
      var key, size := ParseString();
      if key == NULL { return NULL, t; }
      ghost var name, mid := heap.mem[key].text, heap.mem;
      SkipBlanks();
      if p >= end || Byte(p) != ':' { heap.Free(key); return NULL, t; }
      p := p + 1;
      SkipBlanks();
      var val, v := ParseValue();
      if val == NULL { heap.Free(key); return NULL, t; }
      ghost var after := heap.mem;
      r := NewNode(KKey, UKey(NULL, NULL));
      if r == NULL { DropPair(heap, key, val, v, before, mid[key]); return; }
      t := LKey(r, key, size, name, v);
      KeyNode(before, after, mid[key], v, t);
      heap.Store(r, Node(KKey, NULL, UKey(key, val)));
      assert heap.mem == after[r := Node(KKey, NULL, UKey(key, v.addr))];
    }

    /** `jp__parse_object` */
    method ParseObject() returns (r: Addr, ghost t: Located)
      requires Valid() && p < end && Byte(p) == '{'
      modifies `p, heap
      ensures Valid() && old(p) <= p && heap.refused >= old(heap.refused)
      ensures Ended(old(heap.mem), heap.mem, heap.refused != old(heap.refused), Object(text, old(p)).Good?, r, t)
      ensures r != NULL ==> !t.LKey? && Object(text, old(p)) == Good(Erase(t), p)
      decreases end - p, 0
    {
      ghost var before := heap.mem;
      p := p + 1;
      var o := NewNode(KObject, UList(NULL, NULL));
      t := LObj(o, []);
      if o == NULL { return NULL, t; }
      EmptyList(before, t, heap.mem);
      SkipBlanks();
      if p < end && Byte(p) == '}' { p := p + 1; return o, t; }
      r, t := ParseMembers(o, before);
    }

    /** The loop of `jp__parse_object`. */
    method ParseMembers(o: Addr, ghost before: Mem) returns (r: Addr, ghost t: Located)
      requires Valid() && o != NULL && Grew(before, heap.mem, LObj(o, []))
      modifies `p, heap
      ensures Valid() && old(p) <= p && heap.refused >= old(heap.refused)
      ensures Ended(before, heap.mem, heap.refused != old(heap.refused), Members(text, old(p), []).Good?, r, t)
      ensures r != NULL ==> !t.LKey? && Members(text, old(p), []) == Good(Erase(t), p)
      decreases end - p, 3
    {
      hide Grew, Pair, EraseMembers, SkipWs;
      t := LObj(o, []);
      while p < end
        invariant Valid() && old(p) <= p && heap.refused == old(heap.refused)
        invariant t.LObj? && t.addr == o && Shaped(t) && Grew(before, heap.mem, t)
        invariant Members(text, old(p), []) == Members(text, p, EraseMembers(t.kids))
        decreases end - p
      {
        ghost var between := heap.mem;
        var child, x := ParsePair();
        if child == NULL { break; }
        AppendMember(heap, o, child, before, between, t.kids, x);
        t := LObj(o, t.kids + [x]);
        SkipBlanks();
        if p < end && Byte(p) == ',' { p := p + 1; continue; }
        if p < end && Byte(p) == '}' { p := p + 1; return o, t; }
        break;
      }
      Discard(heap, o, t, before);
      return NULL, t;
    }

    /** `jp__parse_array` */
    method ParseArray() returns (r: Addr, ghost t: Located)
      requires Valid() && p < end && Byte(p) == '['
      modifies `p, heap
      ensures Valid() && old(p) <= p && heap.refused >= old(heap.refused)
      ensures Ended(old(heap.mem), heap.mem, heap.refused != old(heap.refused), Array(text, old(p)).Good?, r, t)
      ensures r != NULL ==> !t.LKey? && Array(text, old(p)) == Good(Erase(t), p)
      decreases end - p, 0
    {
      ghost var before := heap.mem;
      p := p + 1;
      var a := NewNode(KArray, UList(NULL, NULL));
      t := LArr(a, []);
      if a == NULL { return NULL, t; }
      EmptyList(before, t, heap.mem);
      SkipBlanks();
      if p < end && Byte(p) == ']' { p := p + 1; return a, t; }
      r, t := ParseElements(a, before);
    }

    /** The loop of `jp__parse_array`. */
    method ParseElements(a: Addr, ghost before: Mem) returns (r: Addr, ghost t: Located)
      requires Valid() && a != NULL && Grew(before, heap.mem, LArr(a, []))
      modifies `p, heap
      ensures Valid() && old(p) <= p && heap.refused >= old(heap.refused)
      ensures Ended(before, heap.mem, heap.refused != old(heap.refused), Elements(text, old(p), []).Good?, r, t)
      ensures r != NULL ==> !t.LKey? && Elements(text, old(p), []) == Good(Erase(t), p)
      decreases end - p, 3
    {
      hide Grew, Value, EraseElems, SkipWs;
      t := LArr(a, []);
      while p < end
        invariant Valid() && old(p) <= p && heap.refused == old(heap.refused)
        invariant t.LArr? && t.addr == a && Shaped(t) && Grew(before, heap.mem, t)
        invariant Elements(text, old(p), []) == Elements(text, p, EraseElems(t.kids))
        decreases end - p
      {
        ghost var between := heap.mem;
        SkipBlanks();
        var child, x := ParseValue();
        if child == NULL { break; }
        AppendElem(heap, a, child, before, between, t.kids, x);
        t := LArr(a, t.kids + [x]);
        SkipBlanks();
        if p < end && Byte(p) == ',' { p := p + 1; continue; }
        if p < end && Byte(p) == ']' { p := p + 1; return a, t; }
        break;
      }
      Discard(heap, a, t, before);
      return NULL, t;
    }

    /** The string case of `jp__parse_value`. */
    method ParseStringNode() returns (r: Addr, ghost t: Located)
      requires Valid()
      modifies `p, heap
      ensures Valid() && old(p) <= p && heap.refused >= old(heap.refused)
      ensures Ended(old(heap.mem), heap.mem, heap.refused != old(heap.refused), String(text, old(p)).Good?, r, t)
      ensures r != NULL ==> t.LStr? && String(text, old(p)) == Good(t.s, p)
    {
      t := LScalar(NULL, Null);
      var b, size := ParseString();
      if b == NULL { return NULL, t; }
      ghost var str := heap.mem[b].text;
      r := NewNode(KStr, UStr(NULL));
      if r == NULL { heap.Free(b); return; }
      heap.Store(r, Node(KStr, NULL, UStr(b)));
      t := LStr(r, b, size, str);
    }

    /** A literal of `width` bytes that the caller has recognised. */
    method ParseLiteral(v: Json, width: nat) returns (r: Addr, ghost t: Located)
      requires Valid() && p + width <= end && Scalar(v)
      modifies `p, heap
      ensures Valid() && p == old(p) + width && heap.refused >= old(heap.refused)
      ensures Ended(old(heap.mem), heap.mem, heap.refused != old(heap.refused), true, r, t)
      ensures r != NULL ==> t == LScalar(r, v)
    {
      p := p + width;
      r := NewNode(KindOf(v), UnionOf(v));
      t := LScalar(r, v);
    }

    /** `jp__parse_value` */
    method ParseValue() returns (r: Addr, ghost t: Located)
      requires Valid()
      modifies `p, heap
      ensures Valid() && old(p) <= p && heap.refused >= old(heap.refused)
      ensures Ended(old(heap.mem), heap.mem, heap.refused != old(heap.refused), Value(text, old(p)).Good?, r, t)
      ensures r != NULL ==> !t.LKey? && Value(text, old(p)) == Good(Erase(t), p)
      decreases end - p, 1
    {
      hide Grew, Object, Array, Number, String;
      t := LScalar(NULL, Null);
      SkipBlanks();
      if p >= end { return NULL, t; }
      assert end - p >= 4 ==> src[p..p + 4] == text[p..p + 4];
      assert end - p >= 5 ==> src[p..p + 5] == text[p..p + 5];
      var c := Byte(p);
      if c == '{' {
        r, t := ParseObject();
      } else if c == '[' {
        r, t := ParseArray();
      } else if c == '"' {
        r, t := ParseStringNode();
      } else if c == 't' && end - p >= 4 && src[p..p + 4] == "true" {
        r, t := ParseLiteral(Bool(true), 4);
      } else if c == 'f' && end - p >= 5 && src[p..p + 5] == "false" {
        r, t := ParseLiteral(Bool(false), 5);
      } else if c == 'n' && end - p >= 4 && src[p..p + 4] == "null" {
        r, t := ParseLiteral(Null, 4);
      } else if c == '-' || IsDigit(c) {
        r, t := ParseNumber();
      } else {
        r := NULL;
      }
    }
  }

  // ---------- the public interface ----------

  /** `sb_json_parse` on `len` bytes followed by a terminator. */
  method Parse(heap: Heap, src: string, len: nat) returns (r: Addr, ghost t: Located)
    requires len < |src| && src[len] == '\0'
    modifies heap
    ensures heap.refused >= old(heap.refused)
    ensures Ended(old(heap.mem), heap.mem, heap.refused != old(heap.refused), Value(src[..len], 0).Good?, r, t)
    ensures r != NULL ==> !t.LKey? && Value(src[..len], 0).value == Erase(t)
  {
    var jp := new Parser(src, len, heap);
    r, t := jp.ParseValue();
  }

  /** What `sb_profile_load` does with the tree: it parses and, if that worked, frees. Nothing is
      left behind, whatever the input and whichever allocations fail. */
  method ParseAndRelease(heap: Heap, src: string, len: nat)
    requires len < |src| && src[len] == '\0'
    modifies heap
    ensures heap.mem == old(heap.mem)
  {
    var r, t := Parse(heap, src, len);
    if r != NULL { Discard(heap, r, t, old(heap.mem)); }
  }

  lemma {:induction false} EraseMembersAt(kids: seq<Located>, i: nat)
    requires i < |kids| && forall k | k in kids :: Shaped(k) && k.LKey?
    ensures Shaped(kids[i].value) && !kids[i].value.LKey?
    ensures EraseMembers(kids)[i] == Member(kids[i].name, Erase(kids[i].value))
  {
    assert kids[i] in kids && Shaped(kids[i]);
    if i == |kids| - 1 {
    } else {
      EraseMembersAt(kids[..|kids| - 1], i);
    }
  }

  /** The blocks of member `i` of an object that lies in memory. */
  lemma MemberCells(m: Mem, t: Located, next: Addr, i: nat)
    requires t.LObj? && Shaped(t) && Separate(t) && Holds(m, t, next) && i < |t.kids|
    ensures var k := t.kids[i];
      && k.LKey? && k.addr != NULL && k.value.addr != NULL && k.addr in m && k.buf in m
      && m[k.addr] == Node(KKey, NextOf(t.kids, i, NULL), UKey(k.buf, k.value.addr))
      && m[k.buf] == Chars(k.size, k.name)
      && Shaped(k.value) && Separate(k.value) && Holds(m, k.value, NULL)
  {
    var k := t.kids[i];
    PartOfList(t.kids, i, NULL);
    assert forall a | a in Addrs(k) :: a in m && m[a] == Cells(t, next)[a] == Cells(k, NextOf(t.kids, i, NULL))[a];
  }

  /** The root block of an object that lies in memory. */
  lemma ObjectCell(m: Mem, t: Located, next: Addr)
    requires Shaped(t) && !t.LKey? && Separate(t) && Holds(m, t, next)
    ensures t.addr != NULL && t.addr in m && m[t.addr].Node? && (m[t.addr].kind == KObject <==> t.LObj?)
    ensures t.LObj? ==> m[t.addr].u == UList(First(t.kids), Last(t.kids))
  {
    assert t.addr in Addrs(t);
  }

  /** `sb_json_get`: the value stored under the first member of that name, NULL when there is none
      or `obj` is no object. `v` is the subtree found. */
  method Get(heap: Heap, obj: Addr, key: string, ghost t: Located, ghost next: Addr)
    returns (r: Addr, ghost v: Located)
    requires obj != NULL ==> obj == t.addr && Shaped(t) && !t.LKey? && Separate(t) && Holds(heap.mem, t, next)
    ensures r == NULL <==> obj == NULL || JsonSpec.Get(Erase(t), key).None?
    ensures r != NULL ==> r == v.addr && Shaped(v) && !v.LKey? && Separate(v) && Holds(heap.mem, v, NULL)
    ensures r != NULL ==> JsonSpec.Get(Erase(t), key) == Some(Erase(v))
  {
    r, v := NULL, t;
    if obj == NULL { return; }
    ObjectCell(heap.mem, t, next);
    if heap.mem[obj].kind != KObject { return; }
    ghost var kids, i, members := t.kids, 0, EraseMembers(t.kids);
    assert Erase(t) == Obj(members);
    FindStep(members, |members|, key);
    hide Holds, Shaped, Separate, EraseMembers, Erase, CString, Find, Cells, Addrs;
    var c := heap.mem[obj].u.first;
    assert members[0..] == members;
    if kids != [] { MemberCells(heap.mem, t, next, 0); }
    while c != NULL
      invariant 0 <= i <= |kids| && c == if i < |kids| then kids[i].addr else NULL
      invariant Find(members[i..], key) == Find(members, key)
      decreases |kids| - i
    {
      MemberCells(heap.mem, t, next, i);
      KeysOf(t);
      EraseMembersAt(kids, i);
      FindStep(members, i, key);
      var node := heap.mem[c];
      if CString(heap.mem[node.u.name].text) == CString(key) {
        v := kids[i].value;
        return node.u.value, v;
      }
      c := node.next;
      i := i + 1;
      if i < |kids| { MemberCells(heap.mem, t, next, i); }
    }
    assert i == |kids| by { if i < |kids| { MemberCells(heap.mem, t, next, i); } }
  }

  /** One comparison of the search. */
  lemma FindStep(members: seq<Member>, i: nat, key: string)
    requires i <= |members|
    ensures Find(members[i..], key) ==
      if i == |members| then None
      else if CString(members[i].name) == CString(key) then Some(members[i].value)
      else Find(members[i + 1..], key)
  {
    if i < |members| { assert members[i..][1..] == members[i + 1..]; }
  }

  lemma KeysOf(t: Located)
    requires t.LObj? && Shaped(t)
    ensures forall k | k in t.kids :: Shaped(k) && k.LKey?
  {
  }

  // ---------- walking an array ----------

  /** The root block of a value that lies in memory: its kind, and what it holds. */
  lemma RootCell(m: Mem, t: Located, next: Addr)
    requires Shaped(t) && !t.LKey? && Separate(t) && Holds(m, t, next)
    ensures t.addr != NULL && t.addr in m && m[t.addr].Node? && m[t.addr].next == next
    ensures m[t.addr].kind == KArray <==> t.LArr?
    ensures t.LArr? ==> m[t.addr].u == UList(First(t.kids), Last(t.kids))
    ensures m[t.addr].kind == KStr <==> t.LStr?
    ensures t.LStr? ==> m[t.addr].u == UStr(t.buf) && t.buf in m && m[t.buf] == Chars(t.size, t.s)
    ensures m[t.addr].kind == KNull <==> t.LScalar? && t.v.Null?
    ensures m[t.addr].kind == KBool <==> t.LScalar? && t.v.Bool?
    ensures t.LScalar? && t.v.Bool? ==> m[t.addr].u == UBool(t.v.b)
    ensures m[t.addr].kind == KInt <==> t.LScalar? && t.v.Int?
    ensures t.LScalar? && t.v.Int? ==> m[t.addr].u == UInt(t.v.i)
    ensures m[t.addr].kind == KNum <==> t.LScalar? && t.v.Num?
    ensures t.LScalar? && t.v.Num? ==> m[t.addr].u == UNum(t.v.lexeme)
  {
    assert t.addr in Addrs(t);
    if t.LStr? { assert t.buf in Addrs(t); }
  }

  /** Element `i` of an array that lies in memory: its blocks, its value and its `next`. */
  lemma ElementCells(m: Mem, t: Located, next: Addr, i: nat)
    requires t.LArr? && Shaped(t) && Separate(t) && Holds(m, t, next) && i < |t.kids|
    ensures var k := t.kids[i];
      && Shaped(k) && !k.LKey? && Separate(k) && Holds(m, k, NextOf(t.kids, i, NULL))
      && k.addr != NULL && k.addr in m && m[k.addr].Node? && m[k.addr].next == NextOf(t.kids, i, NULL)
      && i < |Erase(t).elems| && Erase(t).elems[i] == Erase(k)
  {
    var k := t.kids[i];
    PartOfList(t.kids, i, NULL);
    assert forall a | a in Addrs(k) :: a in m && m[a] == Cells(t, next)[a] == Cells(k, NextOf(t.kids, i, NULL))[a];
    EraseElemsAt(t.kids, i);
    hide Cells, Erase, Addrs;
    RootCell(m, k, NextOf(t.kids, i, NULL));
  }

  lemma {:induction false} EraseElemsAt(kids: seq<Located>, i: nat)
    requires i < |kids| && forall k | k in kids :: Shaped(k) && !k.LKey?
    ensures EraseElems(kids)[i] == Erase(kids[i])
  {
    if i == |kids| - 1 {
    } else {
      EraseElemsAt(kids[..|kids| - 1], i);
    }
  }
}
