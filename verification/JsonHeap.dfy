/** The C heap under the JSON reader, and the trees it holds.

    A `Located` tree is a JSON tree together with the address of every block that
    represents it; `Cells` is exactly the memory it occupies. Ownership, leaks and
    double frees are then equations between memories. */
module JsonHeap {
  import opened JsonSpec

  type Addr = nat
  const NULL: Addr := 0

  datatype Kind = KNull | KBool | KInt | KNum | KStr | KArray | KObject | KKey

  datatype Union =
    | UNone
    | UBool(b: bool)
    | UInt(i: int)
    | UNum(lexeme: string)
    | UStr(s: Addr)
    | UList(first: Addr, last: Addr)
    | UKey(name: Addr, value: Addr)

  /** A node, or a character buffer of `size` bytes that holds `text` and a terminator. */
  datatype Block = Node(kind: Kind, next: Addr, u: Union) | Chars(size: nat, text: string)

  type Mem = map<Addr, Block>

  datatype Located =
    | LScalar(addr: Addr, v: Json)
    | LStr(addr: Addr, buf: Addr, size: nat, s: string)
    | LArr(addr: Addr, kids: seq<Located>)
    | LObj(addr: Addr, kids: seq<Located>)
    | LKey(addr: Addr, buf: Addr, size: nat, name: string, value: Located)

  // ---------- the memory of a tree ----------

  predicate Scalar(v: Json) { v.Null? || v.Bool? || v.Int? || v.Num? }

  function KindOf(v: Json): Kind
    requires Scalar(v)
  {
    match v case Null => KNull case Bool(_) => KBool case Int(_) => KInt case Num(_) => KNum
  }

  function UnionOf(v: Json): Union
    requires Scalar(v)
  {
    match v case Null => UNone case Bool(b) => UBool(b) case Int(i) => UInt(i) case Num(t) => UNum(t)
  }

  /** Arrays hold values, objects hold keys, keys hold values. */
  predicate Shaped(t: Located) {
    match t
    case LScalar(_, v) => Scalar(v)
    case LStr(_, _, size, s) => |s| < size
    case LArr(_, kids) => forall k | k in kids :: Shaped(k) && !k.LKey?
    case LObj(_, kids) => forall k | k in kids :: Shaped(k) && k.LKey?
    case LKey(_, _, size, name, value) => |name| < size && Shaped(value) && !value.LKey?
  }

  function Addrs(t: Located): set<Addr> {
    match t
    case LScalar(a, _) => {a}
    case LStr(a, b, _, _) => {a, b}
    case LArr(a, kids) => {a} + AddrsAll(kids)
    case LObj(a, kids) => {a} + AddrsAll(kids)
    case LKey(a, b, _, _, value) => {a, b} + Addrs(value)
  }

  function AddrsAll(kids: seq<Located>): set<Addr> {
    if kids == [] then {} else AddrsAll(kids[..|kids| - 1]) + Addrs(kids[|kids| - 1])
  }

  /** No block is shared and none is at NULL. */
  predicate Separate(t: Located) {
    t.addr != NULL &&
    match t
    case LScalar(_, _) => true
    case LStr(a, b, _, _) => b != NULL && a != b
    case LArr(a, kids) => a !in AddrsAll(kids) && SeparateAll(kids)
    case LObj(a, kids) => a !in AddrsAll(kids) && SeparateAll(kids)
    case LKey(a, b, _, _, value) => b != NULL && a != b && {a, b} !! Addrs(value) && Separate(value)
  }

  predicate SeparateAll(kids: seq<Located>) {
    kids == [] ||
    var n := |kids| - 1;
    SeparateAll(kids[..n]) && Separate(kids[n]) && AddrsAll(kids[..n]) !! Addrs(kids[n])
  }

  function First(kids: seq<Located>): Addr { if kids == [] then NULL else kids[0].addr }

  function Last(kids: seq<Located>): Addr { if kids == [] then NULL else kids[|kids| - 1].addr }

  /** The blocks of `t` when its root is linked to `next`. */
  function Cells(t: Located, next: Addr): (m: Mem)
    requires Shaped(t)
    ensures m.Keys == Addrs(t)
    decreases t, 0
  {
    match t
    case LScalar(a, v) => map[a := Node(KindOf(v), next, UnionOf(v))]
    case LStr(a, b, size, s) => map[b := Chars(size, s)][a := Node(KStr, next, UStr(b))]
    case LArr(a, kids) => CellsAll(kids, NULL)[a := Node(KArray, next, UList(First(kids), Last(kids)))]
    case LObj(a, kids) => CellsAll(kids, NULL)[a := Node(KObject, next, UList(First(kids), Last(kids)))]
    case LKey(a, b, size, name, value) =>
      Cells(value, NULL)[b := Chars(size, name)][a := Node(KKey, next, UKey(b, value.addr))]
  }

  /** The blocks of a sibling list whose last node is linked to `next`. */
  function CellsAll(kids: seq<Located>, next: Addr): (m: Mem)
    requires forall k | k in kids :: Shaped(k)
    ensures m.Keys == AddrsAll(kids)
    decreases kids, 1
  {
    if kids == [] then map[] else
    var n := |kids| - 1;
    CellsAll(kids[..n], kids[n].addr) + Cells(kids[n], next)
  }

  /** The JSON value a tree represents. */
  function Erase(t: Located): Json
    requires Shaped(t) && !t.LKey?
    decreases t, 0
  {
    match t
    case LScalar(_, v) => v
    case LStr(_, _, _, s) => Str(s)
    case LArr(_, kids) => Arr(EraseElems(kids))
    case LObj(_, kids) => Obj(EraseMembers(kids))
  }

  function EraseElems(kids: seq<Located>): (r: seq<Json>)
    requires forall k | k in kids :: Shaped(k) && !k.LKey?
    ensures |r| == |kids|
    decreases kids, 1
  {
    if kids == [] then [] else EraseElems(kids[..|kids| - 1]) + [Erase(kids[|kids| - 1])]
  }

  function EraseMembers(kids: seq<Located>): (r: seq<Member>)
    requires forall k | k in kids :: Shaped(k) && k.LKey?
    ensures |r| == |kids|
    decreases kids, 1
  {
    if kids == [] then [] else
    var k := kids[|kids| - 1];
    assert k in kids && Shaped(k);
    EraseMembers(kids[..|kids| - 1]) + [Member(k.name, Erase(k.value))]
  }

  // ---------- linking a list ----------

  /** Relinking the root changes one block and only its `next`. */
  lemma Relink(t: Located, next: Addr, next': Addr)
    requires Shaped(t)
    ensures Cells(t, next)[t.addr].Node?
    ensures Cells(t, next') == Cells(t, next)[t.addr := Cells(t, next)[t.addr].(next := next')]
  {
  }

  /** Writing `last->next` turns a list that ended at NULL into one that goes on. */
  lemma RelinkLast(kids: seq<Located>, next: Addr)
    requires kids != [] && SeparateAll(kids) && forall k | k in kids :: Shaped(k)
    ensures var m := CellsAll(kids, NULL);
      m[Last(kids)].Node? && CellsAll(kids, next) == m[Last(kids) := m[Last(kids)].(next := next)]
  {
    Relink(kids[|kids| - 1], NULL, next);
  }

  /** What the `next` field of node `i` points to. */
  function NextOf(kids: seq<Located>, i: nat, next: Addr): Addr
    requires i < |kids|
  {
    if i + 1 < |kids| then kids[i + 1].addr else next
  }

  /** Node `i` of a list keeps its own blocks, apart from those of the nodes before it. */
  lemma {:induction false} PartOfList(kids: seq<Located>, i: nat, next: Addr)
    requires i < |kids| && SeparateAll(kids) && forall k | k in kids :: Shaped(k)
    ensures Separate(kids[i]) && Addrs(kids[i]) <= AddrsAll(kids)
    ensures AddrsAll(kids[..i + 1]) == AddrsAll(kids[..i]) + Addrs(kids[i])
    ensures AddrsAll(kids[..i]) !! Addrs(kids[i])
    ensures forall a | a in Addrs(kids[i]) ::
      CellsAll(kids, next)[a] == Cells(kids[i], NextOf(kids, i, next))[a]
  {
    var n := |kids| - 1;
    if i == n {
      assert kids[..i + 1] == kids;
    } else {
      PartOfList(kids[..n], i, kids[n].addr);
      assert kids[..n][..i + 1] == kids[..i + 1] && kids[..n][..i] == kids[..i];
    }
  }

  /** `m` holds the tree `t`, linked to `next`, block for block. */
  predicate Holds(m: Mem, t: Located, next: Addr)
    requires Shaped(t)
  {
    forall a | a in Addrs(t) :: a in m && m[a] == Cells(t, next)[a]
  }

  lemma SomeAddressIsFree(m: Mem)
    ensures exists a: Addr :: a != NULL && a !in m
  {
    var bound := Above(m.Keys);
    assert bound !in m;
  }

  lemma Above(s: set<Addr>) returns (bound: Addr)
    ensures bound != NULL && forall a | a in s :: a < bound
    decreases s
  {
    if s == {} {
      bound := 1;
    } else {
      var x :| x in s;
      var b := Above(s - {x});
      bound := if b <= x then x + 1 else b;
      assert forall a | a in s :: a == x || a in s - {x};
    }
  }

  /** The allocator and the blocks it has handed out. `refused` counts allocations that failed. */
  class Heap {
    var mem: Mem
    ghost var refused: nat

    constructor ()
      ensures mem == map[] && refused == 0
    {
      mem, refused := map[], 0;
    }

    /** `malloc` and `calloc`: any unused address, or NULL whenever the system pleases. */
    method Alloc(b: Block) returns (a: Addr)
      modifies this
      ensures a == NULL ==> mem == old(mem) && refused == old(refused) + 1
      ensures a != NULL ==> a !in old(mem) && mem == old(mem)[a := b] && refused == old(refused)
    {
      if * {
        a, refused := NULL, refused + 1;
      } else {
        SomeAddressIsFree(mem);
        a :| a != NULL && a !in mem;
        mem := mem[a := b];
      }
    }

    /** A write through a pointer; the block must be live. */
    method Store(a: Addr, b: Block)
      requires a in mem
      modifies `mem
      ensures mem == old(mem)[a := b]
    {
      mem := mem[a := b];
    }

    /** `free`; the block must be live. */
    method Free(a: Addr)
      requires a in mem
      modifies `mem
      ensures mem == old(mem) - {a}
    {
      mem := mem - {a};
    }

    /** `sb_json_free`: gives back every block of the tree and no other. */
    method FreeTree(n: Addr, ghost t: Located, ghost next: Addr)
      requires n != NULL ==> n == t.addr && Shaped(t) && Separate(t) && Holds(mem, t, next)
      modifies `mem
      ensures mem == old(mem) - (if n == NULL then {} else Addrs(t))
      decreases t
    {
      if n == NULL { return; }
      assert mem[n] == Cells(t, next)[n];
      match mem[n].kind {
        case KObject => FreeList(mem[n].u.first, t.kids);
        case KArray => FreeList(mem[n].u.first, t.kids);
        case KKey =>
          Free(mem[n].u.name);
          FreeTree(mem[n].u.value, t.value, NULL);
        case KStr => Free(mem[n].u.s);
        case _ =>
      }
      Free(n);
    }

    /** The sibling loop of `sb_json_free`. */
    method FreeList(first: Addr, ghost kids: seq<Located>)
      requires first == First(kids) && SeparateAll(kids) && forall k | k in kids :: Shaped(k)
      requires forall a | a in AddrsAll(kids) :: a in mem && mem[a] == CellsAll(kids, NULL)[a]
      modifies `mem
      ensures mem == old(mem) - AddrsAll(kids)
      decreases kids
    {
      var cur := first;
      ghost var i := 0;
      while cur != NULL
        invariant 0 <= i <= |kids|
        invariant cur == if i < |kids| then kids[i].addr else NULL
        invariant mem == old(mem) - AddrsAll(kids[..i])
        decreases |kids| - i
      {
        PartOfList(kids, i, NULL);
        ghost var k := kids[i];
        assert Holds(mem, k, NextOf(kids, i, NULL));
        assert mem[cur] == Cells(k, NextOf(kids, i, NULL))[cur];
        var nxt := mem[cur].next;
        FreeTree(cur, k, NextOf(kids, i, NULL));
        cur := nxt;
        i := i + 1;
      }
      assert i == |kids| by { if i < |kids| { PartOfList(kids, i, NULL); } }
      assert kids[..i] == kids;
    }
  }
}
