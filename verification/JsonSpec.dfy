/** What the JSON reader computes, as functions of the input text and a cursor.
    Characters stand for the bytes of the file. */
module JsonSpec {
  import opened Decimal
  import opened Wrappers

  datatype Json =
    | Null
    | Bool(b: bool)
    | Int(i: int)
    | Num(lexeme: string)
    | Str(s: string)
    | Arr(elems: seq<Json>)
    | Obj(members: seq<Member>)

  datatype Member = Member(name: string, value: Json)

  /** Outcome of reading at a cursor: rejected, or a value and the cursor behind it. */
  datatype Parsed<+T> = Bad | Good(value: T, pos: nat)

  const LLONG_MAX: int := 0x7FFF_FFFF_FFFF_FFFF
  const LLONG_MIN: int := -0x8000_0000_0000_0000

  // ---------- blanks ----------

  predicate IsWs(c: char) { c == ' ' || c == '\t' || c == '\n' || c == '\r' }

  function SkipWs(s: string, p: nat): (q: nat)
    requires p <= |s|
    ensures p <= q <= |s|
    ensures q < |s| ==> !IsWs(s[q])
    decreases |s| - p
  {
    if p < |s| && IsWs(s[p]) then SkipWs(s, p + 1) else p
  }

  // ---------- strings ----------

  /** Width of the token that the first pass sees at `i`. */
  function Stride(s: string, i: nat): (n: nat)
    requires i < |s|
    ensures 1 <= n && i + n <= |s|
  {
    if s[i] == '\\' && i + 1 < |s| then 2 else 1
  }

  /** First pass: the closing quote, or the end of the text when there is none. */
  function Scan(s: string, i: nat): (q: nat)
    requires i <= |s|
    ensures i <= q <= |s|
    ensures q < |s| ==> s[q] == '"'
    decreases |s| - i
  {
    if i < |s| && s[i] != '"' then Scan(s, i + Stride(s, i)) else i
  }

  /** First pass: how many tokens it counts between `i` and `q`. */
  function Tokens(s: string, i: nat, q: nat): nat
    requires q < |s|
    decreases q - i
  {
    if i >= q then 0 else 1 + Tokens(s, i + Stride(s, i), q)
  }

  function Unescape(e: char): char {
    match e
    case 'n' => '\n'
    case 't' => '\t'
    case 'r' => '\r'
    case 'b' => 8 as char
    case 'f' => 12 as char
    case 'u' => '?'
    case _ => e
  }

  /** How far the second pass moves behind a backslash at `p`: `\u` drops four more characters. */
  function EscapeWidth(e: char): nat { if e == 'u' then 6 else 2 }

  /** Second pass: the decoded text between `p` and the closing quote `q`. */
  function Decode(s: string, p: nat, q: nat): string
    requires q < |s|
    decreases q - p
  {
    if p >= q then ""
    else if s[p] == '\\' then [Unescape(s[p + 1])] + Decode(s, p + EscapeWidth(s[p + 1]), q)
    else [s[p]] + Decode(s, p + 1, q)
  }

  function String(s: string, p: nat): (r: Parsed<string>)
    requires p <= |s|
    ensures r.Good? ==> p < r.pos <= |s|
  {
    if p >= |s| || s[p] != '"' then Bad else
    var q := Scan(s, p + 1);
    if q >= |s| then Bad else Good(Decode(s, p + 1, q), q + 1)
  }

  // ---------- numbers ----------

  function DigitsEnd(s: string, p: nat): (q: nat)
    requires p <= |s|
    ensures p <= q <= |s| && AllDigits(s[p..q])
    ensures q < |s| ==> !IsDigit(s[q])
    decreases |s| - p
  {
    if p < |s| && IsDigit(s[p]) then
      var q := DigitsEnd(s, p + 1);
      assert s[p..q] == [s[p]] + s[p + 1..q];
      q
    else p
  }

  function SignEnd(s: string, p: nat): (q: nat)
    requires p < |s|
    ensures p <= q <= |s|
  {
    if s[p] == '-' then p + 1 else p
  }

  function FracEnd(s: string, p: nat): (q: nat)
    requires p <= |s|
    ensures p <= q <= |s|
  {
    if p < |s| && s[p] == '.' then DigitsEnd(s, p + 1) else p
  }

  /** Where the sign and digits behind the exponent mark at `p` end; `p` when there are no digits. */
  function PowerEnd(s: string, p: nat): (q: nat)
    requires p < |s|
    ensures p <= q <= |s|
  {
    var d := if p + 1 < |s| && (s[p + 1] == '+' || s[p + 1] == '-') then p + 2 else p + 1;
    var q := DigitsEnd(s, d);
    if q > d then q else p
  }

  function ExpEnd(s: string, p: nat): (q: nat)
    requires p <= |s|
    ensures p <= q <= |s|
  {
    if p < |s| && (s[p] == 'e' || s[p] == 'E') then PowerEnd(s, p) else p
  }

  /** Digits, fraction and exponent from `a` on; `p` when there is no digit. */
  function DecimalEnd(s: string, p: nat, a: nat): (q: nat)
    requires p <= a <= |s|
    ensures p <= q <= |s|
  {
    var b := DigitsEnd(s, a);
    var c := FracEnd(s, b);
    if b == a && c <= b + 1 then p else ExpEnd(s, c)
  }

  predicate IsHex(c: char) { IsDigit(c) || 'a' <= c <= 'f' || 'A' <= c <= 'F' }

  function HexEnd(s: string, p: nat): (q: nat)
    requires p <= |s|
    ensures p <= q <= |s|
    decreases |s| - p
  {
    if p < |s| && IsHex(s[p]) then HexEnd(s, p + 1) else p
  }

  /** Hexadecimal digits with or without a point. */
  function HexFracEnd(s: string, p: nat): (q: nat)
    requires p <= |s|
    ensures p <= q <= |s|
  {
    var b := HexEnd(s, p);
    if b < |s| && s[b] == '.' then HexEnd(s, b + 1) else b
  }

  predicate IsX(c: char) { c == 'x' || c == 'X' }

  /** A hexadecimal number: the prefix and at least one digit. */
  predicate HexAt(s: string, a: nat) {
    a + 2 <= |s| && s[a] == '0' && IsX(s[a + 1]) &&
    HexFracEnd(s, a + 2) > a + 2 + (if HexEnd(s, a + 2) == a + 2 then 1 else 0)
  }

  function HexNumberEnd(s: string, a: nat): (q: nat)
    requires HexAt(s, a)
    ensures a <= q <= |s|
  {
    var c := HexFracEnd(s, a + 2);
    if c < |s| && (s[c] == 'p' || s[c] == 'P') then PowerEnd(s, c) else c
  }

  function Lower(c: char): char { if 'A' <= c <= 'Z' then ((c as int) + 32) as char else c }

  /** The word `w` stands at `p`, in letters of either case. */
  predicate WordAt(s: string, p: nat, w: string) {
    p + |w| <= |s| && forall i :: 0 <= i < |w| ==> Lower(s[p + i]) == w[i]
  }

  predicate IsTagChar(c: char) { IsDigit(c) || c == '_' || 'a' <= Lower(c) <= 'z' }

  function TagEnd(s: string, p: nat): (q: nat)
    requires p <= |s|
    ensures p <= q <= |s|
    decreases |s| - p
  {
    if p < |s| && IsTagChar(s[p]) then TagEnd(s, p + 1) else p
  }

  /** Behind `nan` a tag in parentheses belongs to it. */
  function NanEnd(s: string, p: nat): (q: nat)
    requires p <= |s|
    ensures p <= q <= |s|
  {
    if p < |s| && s[p] == '(' then
      var q := TagEnd(s, p + 1);
      if q < |s| && s[q] == ')' then q + 1 else p
    else p
  }

  /** Where `strtod` stops; `p` itself when it converts nothing. */
  function StrtodEnd(s: string, p: nat): (q: nat)
    requires p < |s|
    ensures p <= q <= |s|
  {
    var a := SignEnd(s, p);
    if WordAt(s, a, "infinity") then a + 8
    else if WordAt(s, a, "inf") then a + 3
    else if WordAt(s, a, "nan") then NanEnd(s, a + 3)
    else if HexAt(s, a) then HexNumberEnd(s, a)
    else DecimalEnd(s, p, a)
  }

  /** Where `strtoll` in base ten stops. */
  function StrtollEnd(s: string, p: nat): (q: nat)
    requires p < |s|
    ensures p <= q <= |s|
  {
    var a := SignEnd(s, p);
    var b := DigitsEnd(s, a);
    if b == a then p else b
  }

  /** What `strtoll` returns: the number, clamped to 64 bits. */
  function Strtoll(s: string, p: nat): int
    requires p < |s|
  {
    var a := SignEnd(s, p);
    var n: int := ValueOf(s[a..DigitsEnd(s, a)]);
    Clamp(if s[p] == '-' then -n else n)
  }

  function Clamp(i: int): int {
    if i > LLONG_MAX then LLONG_MAX else if i < LLONG_MIN then LLONG_MIN else i
  }

  function Number(s: string, p: nat): (r: Parsed<Json>)
    requires p < |s|
    ensures r.Good? ==> p < r.pos <= |s| && (r.value.Int? || r.value.Num?)
  {
    var e1, e2 := StrtodEnd(s, p), StrtollEnd(s, p);
    if e1 == p then Bad
    else if e1 == e2 then Good(Int(Strtoll(s, p)), e1)
    else Good(Num(s[p..e1]), e1)
  }

  // ---------- values ----------

  /** `t` stands in `s` at position `p`. */
  predicate At(s: string, p: nat, t: string) { p + |t| <= |s| && s[p..p + |t|] == t }

  function Value(s: string, p: nat): (r: Parsed<Json>)
    requires p <= |s|
    ensures r.Good? ==> p < r.pos <= |s|
    decreases |s| - p, 1
  {
    var p := SkipWs(s, p);
    if p >= |s| then Bad
    else if s[p] == '{' then Object(s, p)
    else if s[p] == '[' then Array(s, p)
    else if s[p] == '"' then
      (match String(s, p) case Bad => Bad case Good(t, q) => Good(Str(t), q))
    else if At(s, p, "true") then Good(Bool(true), p + 4)
    else if At(s, p, "false") then Good(Bool(false), p + 5)
    else if At(s, p, "null") then Good(Null, p + 4)
    else if s[p] == '-' || IsDigit(s[p]) then Number(s, p)
    else Bad
  }

  function Object(s: string, p: nat): (r: Parsed<Json>)
    requires p < |s|
    ensures r.Good? ==> p < r.pos <= |s|
    decreases |s| - p, 0
  {
    var q := SkipWs(s, p + 1);
    if q < |s| && s[q] == '}' then Good(Obj([]), q + 1) else Members(s, q, [])
  }

  /** One `"name" : value` of an object. */
  function Pair(s: string, p: nat): (r: Parsed<Member>)
    requires p <= |s|
    ensures r.Good? ==> p < r.pos <= |s|
    decreases |s| - p, 2
  {
    match String(s, SkipWs(s, p))
    case Bad => Bad
    case Good(name, q) =>
      var c := SkipWs(s, q);
      if c >= |s| || s[c] != ':' then Bad else
      match Value(s, SkipWs(s, c + 1))
      case Bad => Bad
      case Good(v, e) => Good(Member(name, v), e)
  }

  /** The member loop of an object, entered at `p` with the members read so far. */
  function Members(s: string, p: nat, acc: seq<Member>): (r: Parsed<Json>)
    requires p <= |s|
    ensures r.Good? ==> p < r.pos <= |s|
    decreases |s| - p, 3
  {
    if p >= |s| then Bad else
    match Pair(s, p)
    case Bad => Bad
    case Good(m, e) =>
      var e := SkipWs(s, e);
      if e < |s| && s[e] == ',' then Members(s, e + 1, acc + [m])
      else if e < |s| && s[e] == '}' then Good(Obj(acc + [m]), e + 1)
      else Bad
  }

  function Array(s: string, p: nat): (r: Parsed<Json>)
    requires p < |s|
    ensures r.Good? ==> p < r.pos <= |s|
    decreases |s| - p, 0
  {
    var q := SkipWs(s, p + 1);
    if q < |s| && s[q] == ']' then Good(Arr([]), q + 1) else Elements(s, q, [])
  }

  /** The element loop of an array, entered at `p` with the elements read so far. */
  function Elements(s: string, p: nat, acc: seq<Json>): (r: Parsed<Json>)
    requires p <= |s|
    ensures r.Good? ==> p < r.pos <= |s|
    decreases |s| - p, 3
  {
    if p >= |s| then Bad else
    match Value(s, SkipWs(s, p))
    case Bad => Bad
    case Good(v, e) =>
      var e := SkipWs(s, e);
      if e < |s| && s[e] == ',' then Elements(s, e + 1, acc + [v])
      else if e < |s| && s[e] == ']' then Good(Arr(acc + [v]), e + 1)
      else Bad
  }

  // ---------- member access ----------

  /** A C string ends at its first NUL. */
  function CString(t: string): (r: string)
    ensures r <= t && '\0' !in r
    ensures |r| < |t| ==> t[|r|] == '\0'
  {
    if t == "" || t[0] == '\0' then "" else [t[0]] + CString(t[1..])
  }

  lemma {:induction false} CStringWhole(t: string)
    requires '\0' !in t
    ensures CString(t) == t
  {
    if t == "" {
    } else {
      CStringWhole(t[1..]);
    }
  }

  /** `sb_json_get`: the first member whose name equals `key` as a C string. */
  function Find(members: seq<Member>, key: string): Option<Json> {
    if members == [] then None
    else if CString(members[0].name) == CString(key) then Some(members[0].value)
    else Find(members[1..], key)
  }

  /** The member found is the first whose name is the key as a C string; none is found only if there is
      none. */
  lemma {:induction false} FindsFirst(members: seq<Member>, key: string) returns (i: nat)
    ensures i <= |members| && forall j :: 0 <= j < i ==> CString(members[j].name) != CString(key)
    ensures i < |members| ==> CString(members[i].name) == CString(key) && Find(members, key) == Some(members[i].value)
    ensures i == |members| ==> Find(members, key) == None
  {
    if members == [] || CString(members[0].name) == CString(key) { return 0; }
    i := FindsFirst(members[1..], key);
    assert forall j :: 0 < j < |members| ==> members[j] == members[1..][j - 1];
    i := i + 1;
  }

  function Get(v: Json, key: string): Option<Json> {
    if v.Obj? then Find(v.members, key) else None
  }
}
