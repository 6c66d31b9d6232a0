/** Reading undoes writing. A `Doc` is a JSON text by its grammar (RFC 8259): every blank, every
    choice of escape and every digit of it is there. `Text` writes it out and `Means` says which
    value it stands for; the reader finds exactly that value, whatever follows the text. */
module JsonRoundTrip {
  import opened Decimal
  import opened JsonSpec

  // ---------- the grammar ----------

  datatype Chunk =
    | Raw(c: char)
    | Short(e: char)        // backslash and one of "\/bfnrt
    | Unicode(hex: string)  // backslash, u and four digits

  datatype Doc =
    | DNull
    | DTrue
    | DFalse
    | DNum(neg: bool, digits: string, frac: string, exp: string)
    | DStr(chunks: seq<Chunk>)
    | DArr(pad: string, items: seq<Item>)
    | DObj(pad: string, entries: seq<Entry>)

  datatype Item = Item(before: string, doc: Doc, after: string)

  datatype Entry = Entry(before: string, name: seq<Chunk>, colon: string, gap: string, doc: Doc, after: string)

  /** Space, tab, line feed and carriage return (section 2). */
  predicate Blank(w: string) { forall i :: 0 <= i < |w| ==> (w[i] as int) in {0x20, 0x09, 0x0A, 0x0D} }

  predicate ChunkOk(k: Chunk) {
    match k
    case Raw(c) => c != '"' && c != '\\'
    case Short(e) => e in "\"\\/bfnrt"
    case Unicode(h) => |h| == 4 && IsHex(h[0]) && IsHex(h[1]) && IsHex(h[2]) && IsHex(h[3])
  }

  predicate ChunksOk(ks: seq<Chunk>) { forall k | k in ks :: ChunkOk(k) }

  predicate FracOk(f: string) { f == "" || (|f| > 1 && f[0] == '.' && AllDigits(f[1..])) }

  /** Where the digits of an exponent start. */
  function ExpDigits(x: string): (n: nat)
    requires |x| > 1
    ensures n <= |x|
  {
    if x[1] == '+' || x[1] == '-' then 2 else 1
  }

  predicate ExpOk(x: string) {
    x == "" || (|x| > 1 && (x[0] == 'e' || x[0] == 'E') && |x| > ExpDigits(x) && AllDigits(x[ExpDigits(x)..]))
  }

  predicate Ok(d: Doc) {
    match d
    case DNum(_, digits, frac, exp) => digits != "" && AllDigits(digits) && FracOk(frac) && ExpOk(exp)
    case DStr(ks) => ChunksOk(ks)
    case DArr(pad, items) => Blank(pad) && ItemsOk(items)
    case DObj(pad, entries) => Blank(pad) && EntriesOk(entries)
    case _ => true
  }

  predicate ItemsOk(items: seq<Item>) {
    items == [] || (Blank(items[0].before) && Ok(items[0].doc) && Blank(items[0].after) && ItemsOk(items[1..]))
  }

  predicate EntriesOk(es: seq<Entry>) {
    es == [] ||
    (Blank(es[0].before) && ChunksOk(es[0].name) && Blank(es[0].colon) && Blank(es[0].gap) &&
     Ok(es[0].doc) && Blank(es[0].after) && EntriesOk(es[1..]))
  }

  // ---------- the text of a document ----------

  function ChunkText(k: Chunk): string {
    match k case Raw(c) => [c] case Short(e) => ['\\', e] case Unicode(h) => "\\u" + h
  }

  /** The characters between the quotes, and the closing quote. */
  function ChunksText(ks: seq<Chunk>): string {
    if ks == [] then "\"" else ChunkText(ks[0]) + ChunksText(ks[1..])
  }

  function Quoted(ks: seq<Chunk>): string { "\"" + ChunksText(ks) }

  function Sign(neg: bool): string { if neg then "-" else "" }

  function Text(d: Doc): string {
    match d
    case DNull => "null"
    case DTrue => "true"
    case DFalse => "false"
    case DNum(neg, digits, frac, exp) => Sign(neg) + (digits + (frac + exp))
    case DStr(ks) => Quoted(ks)
    case DArr(pad, items) => "[" + (if items == [] then pad + "]" else ItemsText(items))
    case DObj(pad, entries) => "{" + (if entries == [] then pad + "}" else EntriesText(entries))
  }

  /** The items of an array with their commas, and the closing bracket. */
  function ItemsText(items: seq<Item>): string
    requires items != []
    decreases items, 0
  {
    ItemText(items[0], ItemsRest(items[1..]))
  }

  function ItemText(it: Item, rest: string): string
    decreases it, 0
  {
    it.before + (Text(it.doc) + (it.after + rest))
  }

  function ItemsRest(items: seq<Item>): string
    decreases items, 1
  {
    if items == [] then "]" else "," + ItemsText(items)
  }

  /** The entries of an object with their commas, and the closing brace. */
  function EntriesText(es: seq<Entry>): string
    requires es != []
    decreases es, 0
  {
    EntryText(es[0], EntriesRest(es[1..]))
  }

  function EntryText(e: Entry, rest: string): string
    decreases e, 0
  {
    e.before + (Quoted(e.name) + (e.colon + (":" + (e.gap + (Text(e.doc) + (e.after + rest))))))
  }

  function EntriesRest(es: seq<Entry>): string
    decreases es, 1
  {
    if es == [] then "}" else "," + EntriesText(es)
  }

  // ---------- the value of a document ----------

  /** The character that stands behind a backslash for another (section 7). */
  function EscapeCode(e: char): int {
    match e
    case '"' => 0x22
    case '\\' => 0x5C
    case '/' => 0x2F
    case 'b' => 0x08
    case 'f' => 0x0C
    case 'n' => 0x0A
    case 'r' => 0x0D
    case 't' => 0x09
    case _ => e as int
  }

  function Escaped(e: char): char { EscapeCode(e) as char }

  function ChunkMeans(k: Chunk): char {
    match k
    case Raw(c) => c
    case Short(e) => Escaped(e)
    case Unicode(_) => '?'
  }

  function ChunksMean(ks: seq<Chunk>): string {
    if ks == [] then "" else [ChunkMeans(ks[0])] + ChunksMean(ks[1..])
  }

  /** The nearest 64-bit integer. */
  function Bounded(i: int): int {
    if i > 9_223_372_036_854_775_807 then 9_223_372_036_854_775_807
    else if i < -9_223_372_036_854_775_808 then -9_223_372_036_854_775_808
    else i
  }

  function Means(d: Doc): Json
    requires Ok(d)
  {
    match d
    case DNull => Null
    case DTrue => Bool(true)
    case DFalse => Bool(false)
    case DNum(neg, digits, frac, exp) =>
      if frac == "" && exp == "" then
        var n: int := ValueOf(digits);
        Int(Bounded(if neg then -n else n))
      else Num(Sign(neg) + (digits + (frac + exp)))
    case DStr(ks) => Str(ChunksMean(ks))
    case DArr(_, items) => Arr(ItemsMean(items))
    case DObj(_, entries) => Obj(EntriesMean(entries))
  }

  function ItemsMean(items: seq<Item>): seq<Json>
    requires ItemsOk(items)
  {
    if items == [] then [] else [Means(items[0].doc)] + ItemsMean(items[1..])
  }

  function EntriesMean(es: seq<Entry>): seq<Member>
    requires EntriesOk(es)
  {
    if es == [] then [] else [Member(ChunksMean(es[0].name), Means(es[0].doc))] + EntriesMean(es[1..])
  }

  // ---------- reading it back ----------

  /** `t` stands in `s` at position `p`. */
  ghost predicate Stands(s: string, p: nat, t: string) {
    p + |t| <= |s| && forall k :: 0 <= k < |t| ==> s[p + k] == t[k]
  }

  lemma Split(s: string, p: nat, a: string, b: string)
    requires Stands(s, p, a + b)
    ensures Stands(s, p, a) && Stands(s, p + |a|, b)
  {
    assert forall k :: 0 <= k < |b| ==> (a + b)[|a| + k] == b[k];
    assert forall k :: 0 <= k < |a| ==> (a + b)[k] == a[k];
  }

  /** The first character of what stands at `p`, and the rest of it. */
  lemma Peel(s: string, p: nat, t: string)
    requires Stands(s, p, t) && t != ""
    ensures p < |s| && s[p] == t[0] && p + |t| <= |s| && Stands(s, p + 1, t[1..])
  {
    assert s[p + 0] == t[0];
    assert forall k :: 0 <= k < |t| - 1 ==> t[1..][k] == t[k + 1];
  }

  lemma StandsAt(s: string, p: nat, t: string)
    requires Stands(s, p, t)
    ensures At(s, p, t)
  {
    assert s[p..p + |t|] == t;
  }

  lemma {:induction false} BlanksRead(s: string, p: nat, w: string)
    requires Stands(s, p, w) && Blank(w)
    requires p + |w| < |s| ==> !IsWs(s[p + |w|])
    ensures SkipWs(s, p) == p + |w|
    decreases w
  {
    if w == "" {
    } else {
      Peel(s, p, w);
      BlanksRead(s, p + 1, w[1..]);
    }
  }

  lemma {:induction false} DigitsRead(s: string, p: nat, ds: string)
    requires Stands(s, p, ds) && AllDigits(ds)
    requires p + |ds| < |s| ==> !IsDigit(s[p + |ds|])
    ensures DigitsEnd(s, p) == p + |ds|
    decreases ds
  {
    if ds == "" {
    } else {
      Peel(s, p, ds);
      DigitsRead(s, p + 1, ds[1..]);
    }
  }

  /** The four characters of a `\u` escape are single tokens of pass one. */
  lemma {:induction false} PlainScan(s: string, i: nat, t: string)
    requires Stands(s, i, t) && forall k :: 0 <= k < |t| ==> t[k] != '"' && t[k] != '\\'
    ensures Scan(s, i) == Scan(s, i + |t|)
    decreases t
  {
    if t == "" {
    } else {
      Peel(s, i, t);
      PlainScan(s, i + 1, t[1..]);
    }
  }

  lemma ChunkScan(s: string, i: nat, k: Chunk)
    requires ChunkOk(k) && Stands(s, i, ChunkText(k))
    ensures Scan(s, i) == Scan(s, i + |ChunkText(k)|)
  {
    Peel(s, i, ChunkText(k));
    match k
    case Raw(c) =>
    case Short(e) => Peel(s, i + 1, ChunkText(k)[1..]);
    case Unicode(h) =>
      Split(s, i, "\\u", h);
      Peel(s, i + 1, ChunkText(k)[1..]);
      PlainScan(s, i + 2, h);
  }

  lemma ChunkDecode(s: string, i: nat, k: Chunk, q: nat)
    requires ChunkOk(k) && Stands(s, i, ChunkText(k)) && i + |ChunkText(k)| <= q < |s|
    ensures Decode(s, i, q) == [ChunkMeans(k)] + Decode(s, i + |ChunkText(k)|, q)
  {
    Peel(s, i, ChunkText(k));
    if !k.Raw? { Peel(s, i + 1, ChunkText(k)[1..]); }
  }

  lemma {:induction false} ChunksRead(s: string, i: nat, ks: seq<Chunk>)
    requires ChunksOk(ks) && Stands(s, i, ChunksText(ks))
    ensures var q := i + |ChunksText(ks)| - 1;
      i <= q < |s| && Scan(s, i) == q && Decode(s, i, q) == ChunksMean(ks)
    decreases ks
  {
    hide Stands, ChunkText, ChunkOk, ChunkMeans;
    if ks == [] {
      Peel(s, i, ChunksText(ks));
    } else {
      var t := ChunkText(ks[0]);
      Split(s, i, t, ChunksText(ks[1..]));
      ChunksRead(s, i + |t|, ks[1..]);
      ChunkScan(s, i, ks[0]);
      ChunkDecode(s, i, ks[0], i + |ChunksText(ks)| - 1);
    }
  }

  lemma StringReads(s: string, p: nat, ks: seq<Chunk>)
    requires ChunksOk(ks) && Stands(s, p, Quoted(ks))
    ensures String(s, p) == Good(ChunksMean(ks), p + |Quoted(ks)|)
  {
    hide Stands, ChunksText, ChunksMean, ChunksOk;
    Split(s, p, "\"", ChunksText(ks));
    Peel(s, p, "\"");
    ChunksRead(s, p + 1, ks);
  }

  /** The short escapes of section 7, one by one. */
  lemma ShortEscapesRead(s: string, p: nat, e: char, code: int)
    requires (e, code) in {('"', 0x22), ('\\', 0x5C), ('/', 0x2F), ('b', 8), ('f', 12), ('n', 10), ('r', 13), ('t', 9)}
    requires Stands(s, p, ['"', '\\', e, '"'])
    ensures String(s, p) == Good([code as char], p + 4)
  {
    var ks := [Short(e)];
    assert ks[1..] == [];
    assert ChunksText(ks) == ['\\', e, '"'] && Quoted(ks) == ['"', '\\', e, '"'];
    assert ChunksMean(ks) == [code as char];
    StringReads(s, p, ks);
  }

  /** A character that ends a number. */
  predicate Delimits(c: char) { !IsDigit(c) && c != '.' && c != 'e' && c != 'E' && !IsX(c) }

  /** Nothing behind `d` could be taken for more of it. */
  predicate Ends(s: string, q: nat, d: Doc) { d.DNum? && q < |s| ==> Delimits(s[q]) }

  lemma FracReads(s: string, p: nat, f: string)
    requires FracOk(f) && Stands(s, p, f)
    requires p + |f| < |s| ==> !IsDigit(s[p + |f|]) && s[p + |f|] != '.'
    ensures FracEnd(s, p) == p + |f|
  {
    hide Stands;
    if f != "" {
      Peel(s, p, f);
      DigitsRead(s, p + 1, f[1..]);
    }
  }

  lemma ExpReads(s: string, p: nat, x: string)
    requires ExpOk(x) && Stands(s, p, x)
    requires p + |x| < |s| ==> Delimits(s[p + |x|])
    ensures ExpEnd(s, p) == p + |x|
  {
    hide Stands;
    if x != "" {
      Peel(s, p, x);
      Peel(s, p + 1, x[1..]);
      assert x[1..][1..] == x[2..];
      DigitsRead(s, p + ExpDigits(x), x[ExpDigits(x)..]);
    }
  }

  /** What stands behind the digits, and behind the fraction, is not taken for more of them. */
  lemma TailStops(s: string, b: nat, frac: string, exp: string)
    requires FracOk(frac) && ExpOk(exp) && Stands(s, b, frac) && Stands(s, b + |frac|, exp)
    requires var q := b + |frac| + |exp|; q < |s| ==> Delimits(s[q])
    ensures b < |s| ==> !IsDigit(s[b])
    ensures var c := b + |frac|; c < |s| ==> !IsDigit(s[c]) && s[c] != '.'
  {
    hide Stands;
    if frac != "" { Peel(s, b, frac); }
    if exp != "" { Peel(s, b + |frac|, exp); }
  }

  /** Where the parts of a number end. */
  lemma NumberParts(s: string, p: nat, sign: string, digits: string, frac: string, exp: string)
    requires sign == "" || sign == "-"
    requires digits != "" && AllDigits(digits) && FracOk(frac) && ExpOk(exp)
    requires Stands(s, p, sign + (digits + (frac + exp)))
    requires var q := p + |sign| + |digits| + |frac| + |exp|; q < |s| ==> Delimits(s[q])
    ensures p < |s| && (s[p] == '-' || IsDigit(s[p])) && (s[p] == '-' <==> sign == "-")
    ensures var a := p + |sign|;
      var b := a + |digits|;
      SignEnd(s, p) == a && DigitsEnd(s, a) == b && FracEnd(s, b) == b + |frac| &&
      ExpEnd(s, b + |frac|) == b + |frac| + |exp| && Stands(s, a, digits)
  {
    hide Stands, FracEnd, ExpEnd, DigitsEnd, FracOk, ExpOk, Delimits;
    var a := p + |sign|;
    var b := a + |digits|;
    Split(s, p, sign, digits + (frac + exp));
    Split(s, a, digits, frac + exp);
    Split(s, b, frac, exp);
    TailStops(s, b, frac, exp);
    if sign != "" { Peel(s, p, sign); }
    Peel(s, a, digits);
    DigitsRead(s, a, digits);
    FracReads(s, b, frac);
    ExpReads(s, b + |frac|, exp);
  }

  /** Digits in front of what ends them are no word and no hexadecimal number. */
  lemma DecimalStands(s: string, a: nat, digits: string)
    requires digits != "" && AllDigits(digits) && Stands(s, a, digits)
    requires var b := a + |digits|; b < |s| ==> !IsX(s[b])
    ensures !WordAt(s, a, "infinity") && !WordAt(s, a, "inf") && !WordAt(s, a, "nan") && !HexAt(s, a)
  {
    Peel(s, a, digits);
    if |digits| > 1 { assert s[a + 1] == digits[1]; }
    NoWord(s, a, "infinity");
    NoWord(s, a, "inf");
    NoWord(s, a, "nan");
  }

  lemma NoWord(s: string, a: nat, w: string)
    requires a < |s| && w != "" && Lower(s[a]) != w[0]
    ensures !WordAt(s, a, w)
  {
    assert Lower(s[a + 0]) != w[0];
  }

  /** A number of the grammar is read as the decimal number it is. */
  lemma NumberEnds(s: string, p: nat, sign: string, digits: string, frac: string, exp: string)
    requires sign == "" || sign == "-"
    requires digits != "" && AllDigits(digits) && FracOk(frac) && ExpOk(exp)
    requires Stands(s, p, sign + (digits + (frac + exp)))
    requires var q := p + |sign| + |digits| + |frac| + |exp|; q < |s| ==> Delimits(s[q])
    ensures p < |s| && (s[p] == '-' || IsDigit(s[p])) && (s[p] == '-' <==> sign == "-")
    ensures var a := p + |sign|;
      SignEnd(s, p) == a && DigitsEnd(s, a) == a + |digits| && Stands(s, a, digits) &&
      StrtodEnd(s, p) == a + |digits| + |frac| + |exp|
  {
    hide Stands, FracEnd, ExpEnd, DigitsEnd, ExpOk, WordAt, HexAt, HexNumberEnd, NanEnd;
    NumberParts(s, p, sign, digits, frac, exp);
    var a := p + |sign|;
    var b := a + |digits|;
    Split(s, p, sign, digits + (frac + exp));
    Split(s, a, digits, frac + exp);
    Split(s, b, frac, exp);
    TailIsNoX(s, b, frac, exp);
    DecimalStands(s, a, digits);
  }

  lemma TailIsNoX(s: string, b: nat, frac: string, exp: string)
    requires FracOk(frac) && ExpOk(exp) && Stands(s, b, frac) && Stands(s, b + |frac|, exp)
    requires var q := b + |frac| + |exp|; q < |s| ==> Delimits(s[q])
    ensures b < |s| ==> !IsX(s[b])
  {
    if frac != "" { Peel(s, b, frac); }
    else if exp != "" { Peel(s, b, exp); }
  }

  lemma NumberReads(s: string, p: nat, d: Doc)
    requires d.DNum? && Ok(d) && Stands(s, p, Text(d)) && Ends(s, p + |Text(d)|, d)
    ensures p < |s| && (s[p] == '-' || IsDigit(s[p]))
    ensures Number(s, p) == Good(Means(d), p + |Text(d)|)
  {
    hide Stands, StrtodEnd, DigitsEnd, SignEnd, ExpOk;
    NumberEnds(s, p, Sign(d.neg), d.digits, d.frac, d.exp);
    StandsAt(s, p + |Sign(d.neg)|, d.digits);
    StandsAt(s, p, Text(d));
  }

  lemma TextStarts(d: Doc)
    requires Ok(d)
    ensures Text(d) != "" && !IsWs(Text(d)[0]) && Text(d)[0] != ']' && Text(d)[0] != '}'
  {
    if d.DNum? { assert Text(d)[0] == (if d.neg then '-' else d.digits[0]); }
  }

  lemma WordReads(s: string, p: nat, d: Doc)
    requires d.DNull? || d.DTrue? || d.DFalse?
    requires Stands(s, p, Text(d))
    ensures p < |s| && SkipWs(s, p) == p && Value(s, p) == Good(Means(d), p + |Text(d)|)
  {
    hide Stands, Object, Array, String, Number;
    Peel(s, p, Text(d));
    StandsAt(s, p, Text(d));
    assert s[p] == Text(d)[0];
    if d.DFalse? { assert s[p] == 'f' && |Text(d)| == 5; }
  }

  /** The reader takes a document for the value it stands for and stops right behind it. */
  lemma {:induction false} ValueReads(s: string, p: nat, d: Doc)
    requires Ok(d) && Stands(s, p, Text(d)) && Ends(s, p + |Text(d)|, d)
    ensures p < |s| && SkipWs(s, p) == p && s[p] == Text(d)[0]
    ensures Value(s, p) == Good(Means(d), p + |Text(d)|)
    decreases d, 1
  {
    hide Stands, Number, Object, Array, String, ItemsText, EntriesText, ItemsMean, EntriesMean;
    TextStarts(d);
    Peel(s, p, Text(d));
    assert d.DArr? ==> Text(d)[0] == '[';
    assert d.DObj? ==> Text(d)[0] == '{';
    match d {
      case DNum(_, _, _, _) => NumberReads(s, p, d);
      case DStr(ks) => StringReads(s, p, ks);
      case DArr(pad, items) => ArrayReads(s, p, d);
      case DObj(pad, entries) => ObjectReads(s, p, d);
      case _ => WordReads(s, p, d);
    }
  }

  /** Blanks in front of a character that is none. */
  lemma PadRead(s: string, p: nat, pad: string, rest: string)
    requires Blank(pad) && Stands(s, p, pad + rest) && rest != "" && !IsWs(rest[0])
    ensures var q := p + |pad|;
      p < |s| && q < |s| && SkipWs(s, p) == q && SkipWs(s, q) == q && s[q] == rest[0] && Stands(s, q, rest)
  {
    hide Stands;
    Split(s, p, pad, rest);
    Peel(s, p + |pad|, rest);
    BlanksRead(s, p, pad);
  }

  lemma {:induction false} ArrayReads(s: string, p: nat, d: Doc)
    requires d.DArr? && Ok(d) && Stands(s, p, Text(d))
    ensures p < |s| && Array(s, p) == Good(Means(d), p + |Text(d)|)
    decreases d, 0
  {
    hide Stands, Elements, ItemsText;
    Split(s, p, "[", if d.items == [] then d.pad + "]" else ItemsText(d.items));
    Peel(s, p, Text(d));
    if d.items == [] {
      PadRead(s, p + 1, d.pad, "]");
    } else {
      ItemsRead(s, p + 1, d.items, []);
      assert [] + ItemsMean(d.items) == ItemsMean(d.items);
    }
  }

  /** What stands around one value of a list: blanks, the value, blanks, and `rest`. */
  lemma {:induction false} Surrounded(s: string, p: nat, before: string, d: Doc, after: string, rest: string)
    requires Blank(before) && Ok(d) && Blank(after)
    requires rest != "" && !IsWs(rest[0]) && Delimits(rest[0])
    requires Stands(s, p, before + (Text(d) + (after + rest)))
    ensures var v := p + |before|;
      var e := v + |Text(d)|;
      var r := e + |after|;
      p < |s| && v < |s| && SkipWs(s, p) == v && SkipWs(s, v) == v && s[v] == Text(d)[0] &&
      Value(s, v) == Good(Means(d), e) &&
      e <= |s| && r < |s| && SkipWs(s, e) == r && s[r] == rest[0] && Stands(s, r, rest)
    decreases d, 2
  {
    hide Stands, Text, Value, Means, Ok, Ends;
    TextStarts(d);
    var v := p + |before|;
    var e := v + |Text(d)|;
    assert (Text(d) + (after + rest))[0] == Text(d)[0];
    PadRead(s, p, before, Text(d) + (after + rest));
    Split(s, v, Text(d), after + rest);
    PadRead(s, e, after, rest);
    assert Ends(s, e, d) by { Delimiter(s, e, d, after, rest); }
    ValueReads(s, v, d);
  }

  lemma Delimiter(s: string, e: nat, d: Doc, after: string, rest: string)
    requires Blank(after) && rest != "" && Delimits(rest[0]) && Stands(s, e, after + rest)
    ensures Ends(s, e, d)
  {
    Peel(s, e, after + rest);
  }

  /** One item, in front of `rest`. */
  lemma {:induction false} ItemReads(s: string, p: nat, it: Item, rest: string)
    requires ItemsOk([it]) && rest != "" && !IsWs(rest[0]) && Delimits(rest[0])
    requires Stands(s, p, ItemText(it, rest))
    ensures var q := p + |it.before|;
      var r := p + |ItemText(it, rest)| - |rest|;
      var v := r - |it.after|;
      q <= v && p < |s| && q < |s| && SkipWs(s, p) == q && SkipWs(s, q) == q && s[q] != ']' &&
      Value(s, q) == Good(Means(it.doc), v) &&
      v <= |s| && r < |s| && SkipWs(s, v) == r && s[r] == rest[0] && Stands(s, r, rest)
    decreases it, 2
  {
    hide Stands, Text, Value, Means, Ok, Delimits;
    Surrounded(s, p, it.before, it.doc, it.after, rest);
    TextStarts(it.doc);
  }

  lemma {:induction false} ItemsMeanStep(items: seq<Item>, acc: seq<Json>, v: Json)
    requires items != [] && ItemsOk(items) && v == Means(items[0].doc)
    ensures acc + ItemsMean(items) == acc + [v] + ItemsMean(items[1..])
    ensures |items| == 1 ==> acc + ItemsMean(items) == acc + [v]
  {
    hide Means, Ok;
    assert ItemsMean(items) == [v] + ItemsMean(items[1..]);
  }

  lemma {:induction false} EntriesMeanStep(es: seq<Entry>, acc: seq<Member>, m: Member)
    requires es != [] && EntriesOk(es) && m == Member(ChunksMean(es[0].name), Means(es[0].doc))
    ensures acc + EntriesMean(es) == acc + [m] + EntriesMean(es[1..])
    ensures |es| == 1 ==> acc + EntriesMean(es) == acc + [m]
  {
    hide Means, Ok, ChunksMean;
    assert EntriesMean(es) == [m] + EntriesMean(es[1..]);
  }

  /** One round of the element loop. */
  lemma ElementsStep(s: string, p: nat, acc: seq<Json>, v: Json, e: nat, q: nat)
    requires p < |s| && q < |s| && SkipWs(s, p) == q && SkipWs(s, q) == q && Value(s, q) == Good(v, e)
    ensures Elements(s, p, acc) == Elements(s, q, acc)
    ensures var r := SkipWs(s, e);
      r < |s| && s[r] == ',' ==> Elements(s, p, acc) == Elements(s, r + 1, acc + [v])
    ensures var r := SkipWs(s, e);
      r < |s| && s[r] == ']' ==> Elements(s, p, acc) == Good(Arr(acc + [v]), r + 1)
  {
    hide Value, SkipWs;
  }

  /** One round of the member loop. */
  lemma MembersStep(s: string, p: nat, acc: seq<Member>, m: Member, e: nat, q: nat)
    requires p < |s| && q < |s| && Pair(s, p) == Pair(s, q) == Good(m, e)
    ensures Members(s, p, acc) == Members(s, q, acc)
    ensures var r := SkipWs(s, e);
      r < |s| && s[r] == ',' ==> Members(s, p, acc) == Members(s, r + 1, acc + [m])
    ensures var r := SkipWs(s, e);
      r < |s| && s[r] == '}' ==> Members(s, p, acc) == Good(Obj(acc + [m]), r + 1)
  {
    hide Pair, SkipWs;
  }

  /** The element loop, entered in front of `items`. */
  lemma {:induction false} ItemsRead(s: string, p: nat, items: seq<Item>, acc: seq<Json>)
    requires items != [] && ItemsOk(items) && Stands(s, p, ItemsText(items))
    ensures var q := p + |items[0].before|;
      p < |s| && q < |s| && SkipWs(s, p) == q && s[q] != ']' && Elements(s, p, acc) == Elements(s, q, acc)
    ensures Elements(s, p, acc) == Good(Arr(acc + ItemsMean(items)), p + |ItemsText(items)|)
    decreases items
  {
    hide Stands, ItemText, Value, Means, Ok, Elements, SkipWs, ItemsMean;
    var it := items[0];
    var tail := items[1..];
    var rest := ItemsRest(tail);
    ItemReads(s, p, it, rest);
    var r := p + |ItemsText(items)| - |rest|;
    ElementsStep(s, p, acc, Means(it.doc), r - |it.after|, p + |it.before|);
    ItemsMeanStep(items, acc, Means(it.doc));
    if tail == [] {
    } else {
      Split(s, r, ",", ItemsText(tail));
      ItemsRead(s, r + 1, tail, acc + [Means(it.doc)]);
    }
  }

  lemma {:induction false} ObjectReads(s: string, p: nat, d: Doc)
    requires d.DObj? && Ok(d) && Stands(s, p, Text(d))
    ensures p < |s| && Object(s, p) == Good(Means(d), p + |Text(d)|)
    decreases d, 0
  {
    hide Stands, Members, EntriesText;
    Split(s, p, "{", if d.entries == [] then d.pad + "}" else EntriesText(d.entries));
    Peel(s, p, Text(d));
    if d.entries == [] {
      PadRead(s, p + 1, d.pad, "}");
    } else {
      EntriesRead(s, p + 1, d.entries, []);
      assert [] + EntriesMean(d.entries) == EntriesMean(d.entries);
    }
  }

  /** The name of an entry and its colon, in front of `rest`. */
  lemma NameReads(s: string, p: nat, before: string, name: seq<Chunk>, colon: string, rest: string)
    requires Blank(before) && ChunksOk(name) && Blank(colon)
    requires Stands(s, p, before + (Quoted(name) + (colon + (":" + rest))))
    ensures var n := p + |before|;
      var q := n + |Quoted(name)|;
      var c := q + |colon|;
      p < |s| && n < |s| && SkipWs(s, p) == n && SkipWs(s, n) == n && s[n] == '"' &&
      String(s, n) == Good(ChunksMean(name), q) &&
      q <= |s| && c < |s| && SkipWs(s, q) == c && s[c] == ':' && Stands(s, c + 1, rest)
  {
    hide Stands, String, ChunksMean, ChunksOk, ChunksText;
    assert (Quoted(name) + (colon + (":" + rest)))[0] == '"';
    PadRead(s, p, before, Quoted(name) + (colon + (":" + rest)));
    var n := p + |before|;
    Split(s, n, Quoted(name), colon + (":" + rest));
    StringReads(s, n, name);
    assert (":" + rest)[0] == ':';
    PadRead(s, n + |Quoted(name)|, colon, ":" + rest);
    Split(s, n + |Quoted(name)| + |colon|, ":", rest);
  }

  /** One entry, in front of `rest`. */
  lemma {:induction false} EntryReads(s: string, p: nat, e: Entry, rest: string)
    requires EntriesOk([e]) && rest != "" && !IsWs(rest[0]) && Delimits(rest[0])
    requires Stands(s, p, EntryText(e, rest))
    ensures var q := p + |e.before|;
      var r := p + |EntryText(e, rest)| - |rest|;
      var v := r - |e.after|;
      q <= v && p < |s| && q < |s| && SkipWs(s, p) == q && s[q] == '"' && Pair(s, q) == Pair(s, p) &&
      Pair(s, p) == Good(Member(ChunksMean(e.name), Means(e.doc)), v) &&
      v <= |s| && r < |s| && SkipWs(s, v) == r && s[r] == rest[0] && Stands(s, r, rest)
    decreases e, 2
  {
    hide Stands, Text, Value, Means, Ok, String, ChunksMean, ChunksOk, Quoted, Delimits;
    NameReads(s, p, e.before, e.name, e.colon, e.gap + (Text(e.doc) + (e.after + rest)));
    var g := p + |e.before| + |Quoted(e.name)| + |e.colon| + 1;
    Surrounded(s, g, e.gap, e.doc, e.after, rest);
  }

  /** The member loop, entered in front of `es`. */
  lemma {:induction false} EntriesRead(s: string, p: nat, es: seq<Entry>, acc: seq<Member>)
    requires es != [] && EntriesOk(es) && Stands(s, p, EntriesText(es))
    ensures var q := p + |es[0].before|;
      p < |s| && q < |s| && SkipWs(s, p) == q && s[q] != '}' && Members(s, p, acc) == Members(s, q, acc)
    ensures Members(s, p, acc) == Good(Obj(acc + EntriesMean(es)), p + |EntriesText(es)|)
    decreases es
  {
    hide Stands, EntryText, Means, Ok, Pair, ChunksMean, ChunksOk, Members, SkipWs, EntriesMean;
    var e := es[0];
    var tail := es[1..];
    var rest := EntriesRest(tail);
    EntryReads(s, p, e, rest);
    var m := Member(ChunksMean(e.name), Means(e.doc));
    var r := p + |EntriesText(es)| - |rest|;
    MembersStep(s, p, acc, m, r - |e.after|, p + |e.before|);
    EntriesMeanStep(es, acc, m);
    if tail == [] {
    } else {
      Split(s, r, ",", EntriesText(tail));
      EntriesRead(s, r + 1, tail, acc + [m]);
    }
  }

  /** The whole text: blanks and a document, followed by anything that does not run on from a
      number. */
  lemma ReadsDocument(s: string, before: string, d: Doc)
    requires Blank(before) && Ok(d) && Stands(s, 0, before + Text(d)) && Ends(s, |before| + |Text(d)|, d)
    ensures Value(s, 0) == Good(Means(d), |before| + |Text(d)|)
  {
    TextStarts(d);
    hide Stands, Text, Means, Ok, Delimits, Value;
    PadRead(s, 0, before, Text(d));
    Split(s, 0, before, Text(d));
    ValueReads(s, |before|, d);
    ValueSkips(s, 0);
  }

  /** Blanks in front of a value do not matter. */
  lemma ValueSkips(s: string, p: nat)
    requires p <= |s|
    ensures Value(s, p) == Value(s, SkipWs(s, p))
  {
  }

  // ---------- every value has a document ----------

  /** Values the round trip covers: 64-bit integers, and no other numbers. */
  predicate Printable(v: Json) {
    match v
    case Int(i) => Bounded(i) == i
    case Num(_) => false
    case Arr(vs) => forall x | x in vs :: Printable(x)
    case Obj(ms) => forall m | m in ms :: Printable(m.value)
    case _ => true
  }

  function CharDoc(c: char): Chunk {
    match c as int
    case 0x22 => Short('"')
    case 0x5C => Short('\\')
    case 0x08 => Short('b')
    case 0x0C => Short('f')
    case 0x0A => Short('n')
    case 0x0D => Short('r')
    case 0x09 => Short('t')
    case _ => Raw(c)
  }

  function StringDoc(t: string): (ks: seq<Chunk>)
    ensures ChunksOk(ks) && ChunksMean(ks) == t
  {
    if t == "" then [] else [CharDoc(t[0])] + StringDoc(t[1..])
  }

  /** Prints without blanks. */
  function Print(v: Json): Doc
    requires Printable(v)
  {
    match v
    case Null => DNull
    case Bool(b) => if b then DTrue else DFalse
    case Int(i) => DNum(i < 0, Decimal.Text(if i < 0 then -i else i), "", "")
    case Str(t) => DStr(StringDoc(t))
    case Arr(vs) => DArr("", PrintElems(vs))
    case Obj(ms) => DObj("", PrintMembers(ms))
  }

  function PrintElems(vs: seq<Json>): seq<Item>
    requires forall x | x in vs :: Printable(x)
  {
    if vs == [] then [] else [Item("", Print(vs[0]), "")] + PrintElems(vs[1..])
  }

  function PrintMembers(ms: seq<Member>): seq<Entry>
    requires forall m | m in ms :: Printable(m.value)
  {
    if ms == [] then [] else
    [Entry("", StringDoc(ms[0].name), "", "", Print(ms[0].value), "")] + PrintMembers(ms[1..])
  }

  lemma {:induction false} PrintMeans(v: Json)
    requires Printable(v)
    ensures Ok(Print(v)) && Means(Print(v)) == v
    decreases v, 0
  {
    match v {
      case Int(i) => TextDenotes(if i < 0 then -i else i);
      case Arr(vs) => PrintElemsMean(vs);
      case Obj(ms) => PrintMembersMean(ms);
      case _ =>
    }
  }

  lemma {:induction false} PrintElemsMean(vs: seq<Json>)
    requires forall x | x in vs :: Printable(x)
    ensures ItemsOk(PrintElems(vs)) && ItemsMean(PrintElems(vs)) == vs
    decreases vs, 1
  {
    if vs == [] {
    } else {
      PrintMeans(vs[0]);
      PrintElemsMean(vs[1..]);
    }
  }

  lemma {:induction false} PrintMembersMean(ms: seq<Member>)
    requires forall m | m in ms :: Printable(m.value)
    ensures EntriesOk(PrintMembers(ms)) && EntriesMean(PrintMembers(ms)) == ms
    decreases ms, 1
  {
    if ms == [] {
    } else {
      PrintMeans(ms[0].value);
      PrintMembersMean(ms[1..]);
    }
  }

  /** Reading undoes printing. */
  lemma RoundTrip(v: Json)
    requires Printable(v)
    ensures Value(Text(Print(v)), 0) == Good(v, |Text(Print(v))|)
  {
    PrintMeans(v);
    var t := Text(Print(v));
    assert "" + t == t;
    ReadsDocument(t, "", Print(v));
  }
}
