/** Templates with placeholders in braces: one replacement after the other against one substitution of
    all placeholders at once. */
module Template {
  import opened Wrappers

  // ---------- replacing ----------

  /** `str::replace`: every occurrence of `pat`, found from left to right, gives way to `rep`. */
  function Replace(s: string, pat: string, rep: string): string
    requires pat != ""
    decreases s
  {
    if s == "" then ""
    else if pat <= s then rep + Replace(s[|pat|..], pat, rep)
    else [s[0]] + Replace(s[1..], pat, rep)
  }

  datatype Binding = Binding(key: string, value: string)

  function Hole(key: string): string { "{" + key + "}" }

  /** One replacement after the other, each over the result of those before. */
  function Sequential(s: string, bs: seq<Binding>): string
    decreases bs
  {
    if bs == [] then s else Sequential(Replace(s, Hole(bs[0].key), bs[0].value), bs[1..])
  }

  /** The first binding whose placeholder stands at the front of `s`. */
  function AtFront(s: string, bs: seq<Binding>): Option<Binding> {
    if bs == [] then None else if Hole(bs[0].key) <= s then Some(bs[0]) else AtFront(s, bs[1..])
  }

  lemma {:induction false} AtFrontHole(s: string, bs: seq<Binding>)
    requires AtFront(s, bs).Some?
    ensures Hole(AtFront(s, bs).value.key) <= s
  {
    if Hole(bs[0].key) <= s {
    } else {
      AtFrontHole(s, bs[1..]);
    }
  }

  /** All placeholders at once, in one pass over the template: what is put in is never read again. */
  function Simultaneous(s: string, bs: seq<Binding>): string
    decreases s
  {
    if s == "" then "" else
    match AtFront(s, bs)
    case Some(b) =>
      AtFrontHole(s, bs);
      b.value + Simultaneous(s[|Hole(b.key)|..], bs)
    case None => [s[0]] + Simultaneous(s[1..], bs)
  }

  // ---------- templates in pieces ----------

  /** A template is made of characters and of holes. */
  datatype Piece = Ch(c: char) | Gap(key: string)

  function PieceText(p: Piece): string {
    match p case Ch(c) => [c] case Gap(k) => Hole(k)
  }

  function Text(ps: seq<Piece>): string {
    if ps == [] then "" else PieceText(ps[0]) + Text(ps[1..])
  }

  predicate Braceless(s: string) { '{' !in s && '}' !in s }

  /** No brace opens except at the start of a hole. */
  predicate Flat(ps: seq<Piece>) { forall p | p in ps :: FlatPiece(p) }

  predicate FlatPiece(p: Piece) {
    match p case Ch(c) => c != '{' case Gap(k) => Braceless(k)
  }

  /** Where the next brace after position `i` is. */
  function NextBrace(s: string, i: nat): (j: nat)
    requires i <= |s|
    ensures i <= j <= |s| && Braceless(s[i..j])
    ensures j < |s| ==> s[j] == '{' || s[j] == '}'
    decreases |s| - i
  {
    if i == |s| || s[i] == '{' || s[i] == '}' then i else
    var j := NextBrace(s, i + 1);
    assert s[i..j] == [s[i]] + s[i + 1..j];
    j
  }

  /** The pieces of a template: a hole is an opening brace whose next brace closes it. */
  function Pieces(s: string): (ps: seq<Piece>)
    decreases s
  {
    if s == "" then []
    else
      var j := NextBrace(s, 1);
      if s[0] == '{' && j < |s| && s[j] == '}' then [Gap(s[1..j])] + Pieces(s[j + 1..])
      else [Ch(s[0])] + Pieces(s[1..])
  }

  /** The first piece. */
  lemma PiecesFront(s: string)
    requires s != ""
    ensures var j := NextBrace(s, 1);
      Pieces(s) != [] &&
      if s[0] == '{' && j < |s| && s[j] == '}' then
        Pieces(s)[0] == Gap(s[1..j]) && Pieces(s)[1..] == Pieces(s[j + 1..])
      else Pieces(s)[0] == Ch(s[0]) && Pieces(s)[1..] == Pieces(s[1..])
  {
  }

  lemma SplitHole(s: string, j: nat)
    requires 1 <= j < |s| && s[0] == '{' && s[j] == '}'
    ensures s == Hole(s[1..j]) + s[j + 1..]
  {
  }

  lemma {:induction false} PiecesText(s: string)
    ensures Text(Pieces(s)) == s
    decreases s
  {
    if s == "" {
    } else {
      hide NextBrace, Pieces, Hole;
      PiecesFront(s);
      var j := NextBrace(s, 1);
      if s[0] == '{' && j < |s| && s[j] == '}' {
        PiecesText(s[j + 1..]);
        SplitHole(s, j);
      } else {
        PiecesText(s[1..]);
        assert s == [s[0]] + s[1..];
      }
    }
  }

  /** Every opening brace of the template is closed before the next one opens. */
  predicate Unnested(s: string)
    decreases s
  {
    s == "" ||
    var j := NextBrace(s, 1);
    if s[0] == '{' then j < |s| && s[j] == '}' && Unnested(s[j + 1..]) else Unnested(s[1..])
  }

  lemma {:induction false} UnnestedFlat(s: string)
    requires Unnested(s)
    ensures Flat(Pieces(s))
    decreases s
  {
    if s == "" {
    } else {
      var j := NextBrace(s, 1);
      if s[0] == '{' { UnnestedFlat(s[j + 1..]); } else { UnnestedFlat(s[1..]); }
    }
  }

  // ---------- filling holes ----------

  function Chars(v: string): seq<Piece> {
    if v == "" then [] else [Ch(v[0])] + Chars(v[1..])
  }

  function Fill(ps: seq<Piece>, b: Binding): seq<Piece> {
    if ps == [] then []
    else (if ps[0] == Gap(b.key) then Chars(b.value) else [ps[0]]) + Fill(ps[1..], b)
  }

  function Lookup(bs: seq<Binding>, key: string): Option<string> {
    if bs == [] then None else if bs[0].key == key then Some(bs[0].value) else Lookup(bs[1..], key)
  }

  /** The text with every bound hole filled. */
  function Filled(ps: seq<Piece>, bs: seq<Binding>): string {
    if ps == [] then "" else FilledPiece(ps[0], bs) + Filled(ps[1..], bs)
  }

  function FilledPiece(p: Piece, bs: seq<Binding>): string {
    match p
    case Ch(c) => [c]
    case Gap(k) => match Lookup(bs, k) case Some(v) => v case None => Hole(k)
  }

  lemma {:induction false} TextAppend(a: seq<Piece>, b: seq<Piece>)
    ensures Text(a + b) == Text(a) + Text(b)
  {
    hide PieceText;
    if a == [] {
      assert a + b == b;
    } else {
      TextAppend(a[1..], b);
      assert (a + b)[0] == a[0] && (a + b)[1..] == a[1..] + b;
      Reassociate(PieceText(a[0]), Text(a[1..]), Text(b));
    }
  }

  lemma Reassociate<T>(x: seq<T>, y: seq<T>, z: seq<T>)
    ensures x + (y + z) == x + y + z
  {
  }

  lemma {:induction false} CharsText(v: string)
    ensures Text(Chars(v)) == v
    ensures forall p | p in Chars(v) :: p.Ch? && p.c in v
  {
    if v == "" {
    } else {
      CharsText(v[1..]);
    }
  }

  lemma {:induction false} FilledAppend(a: seq<Piece>, b: seq<Piece>, bs: seq<Binding>)
    ensures Filled(a + b, bs) == Filled(a, bs) + Filled(b, bs)
  {
    hide FilledPiece;
    if a == [] {
      assert a + b == b;
    } else {
      FilledAppend(a[1..], b, bs);
      assert (a + b)[0] == a[0] && (a + b)[1..] == a[1..] + b;
      Reassociate(FilledPiece(a[0], bs), Filled(a[1..], bs), Filled(b, bs));
    }
  }

  lemma {:induction false} FilledChars(v: string, bs: seq<Binding>)
    ensures Filled(Chars(v), bs) == v
  {
    if v == "" {
    } else {
      FilledChars(v[1..], bs);
      assert Chars(v)[0] == Ch(v[0]) && Chars(v)[1..] == Chars(v[1..]);
    }
  }

  lemma FilledOne(p: Piece, bs: seq<Binding>)
    ensures Filled([p], bs) == FilledPiece(p, bs)
  {
    assert [p][1..] == [];
  }

  /** Filling one hole first changes nothing, because what it puts in has no holes. */
  lemma {:induction false} FillFirst(ps: seq<Piece>, bs: seq<Binding>)
    requires bs != []
    ensures Filled(Fill(ps, bs[0]), bs[1..]) == Filled(ps, bs)
  {
    if ps == [] {
    } else {
      FillFirst(ps[1..], bs);
      FilledOne(ps[0], bs[1..]);
      if ps[0] == Gap(bs[0].key) {
        FilledAppend(Chars(bs[0].value), Fill(ps[1..], bs[0]), bs[1..]);
        FilledChars(bs[0].value, bs[1..]);
      } else {
        FilledAppend([ps[0]], Fill(ps[1..], bs[0]), bs[1..]);
      }
    }
  }

  lemma {:induction false} FilledNone(ps: seq<Piece>)
    ensures Filled(ps, []) == Text(ps)
  {
    if ps == [] {
    } else {
      FilledNone(ps[1..]);
    }
  }

  /** Neither is a prefix of the other. */
  predicate Apart(a: string, b: string) { !(a <= b) && !(b <= a) }

  /** No brace that opens in `v` can be the start of the placeholder of `key`, whatever follows. */
  predicate Harmless(v: string, key: string) {
    forall k :: 0 <= k < |v| && v[k] == '{' ==> Apart(v[k..], Hole(key))
  }

  /** The characters in front of the first hole. */
  function Leading(ps: seq<Piece>): string {
    if ps == [] || ps[0].Gap? then "" else [ps[0].c] + Leading(ps[1..])
  }

  /** No brace written out in `ps` can be the start of the placeholder of `key`, whatever the holes are
      filled with. */
  predicate Deaf(ps: seq<Piece>, key: string) {
    ps == [] || (DeafFront(ps, key) && Deaf(ps[1..], key))
  }

  predicate DeafFront(ps: seq<Piece>, key: string)
    requires ps != []
  {
    match ps[0] case Ch(c) => (c == '{' ==> Apart(Leading(ps), Hole(key))) case Gap(k) => Braceless(k)
  }

  predicate DeafAll(ps: seq<Piece>, bs: seq<Binding>) { forall b | b in bs :: Deaf(ps, b.key) }

  predicate KeysPlain(bs: seq<Binding>) { forall b | b in bs :: Braceless(b.key) }

  /** No value can be the start of a placeholder that is replaced later. */
  predicate Quiet(bs: seq<Binding>) {
    forall i, j :: 0 <= i < j < |bs| ==> Harmless(bs[i].value, bs[j].key)
  }

  lemma {:induction false} FlatDeaf(ps: seq<Piece>, key: string)
    requires Flat(ps)
    ensures Deaf(ps, key)
  {
    if ps == [] {
    } else {
      assert FlatPiece(ps[0]);
      FlatDeaf(ps[1..], key);
    }
  }

  lemma {:induction false} LeadingText(ps: seq<Piece>)
    ensures Leading(ps) <= Text(ps)
  {
    if ps == [] || ps[0].Gap? {
    } else {
      LeadingText(ps[1..]);
    }
  }

  lemma {:induction false} LeadingGrows(ps: seq<Piece>, b: Binding)
    ensures Leading(ps) <= Leading(Fill(ps, b))
  {
    if ps == [] || ps[0].Gap? {
    } else {
      LeadingGrows(ps[1..], b);
      var filled := Fill(ps, b);
      assert filled[0] == ps[0] && filled[1..] == Fill(ps[1..], b);
    }
  }

  lemma {:induction false} LeadingChars(v: string, tail: seq<Piece>)
    ensures v <= Leading(Chars(v) + tail)
  {
    if v == "" {
    } else {
      LeadingChars(v[1..], tail);
      var all := Chars(v) + tail;
      assert all[0] == Ch(v[0]) && all[1..] == Chars(v[1..]) + tail;
    }
  }

  lemma ApartStays(a: string, longer: string, h: string)
    requires Apart(a, h) && a <= longer
    ensures Apart(longer, h)
  {
  }

  lemma {:induction false} DeafChars(v: string, tail: seq<Piece>, key: string)
    requires Harmless(v, key) && Deaf(tail, key)
    ensures Deaf(Chars(v) + tail, key)
  {
    hide Hole, Leading;
    var all := Chars(v) + tail;
    if v == "" {
      assert all == tail;
    } else {
      assert forall k :: 0 <= k < |v| - 1 ==> v[1..][k] == v[k + 1] && v[1..][k..] == v[k + 1..];
      DeafChars(v[1..], tail, key);
      assert all[0] == Ch(v[0]) && all[1..] == Chars(v[1..]) + tail;
      if v[0] == '{' {
        assert v[0..] == v;
        LeadingChars(v, tail);
        ApartStays(v, Leading(all), Hole(key));
      }
    }
  }

  /** Filling a hole with something harmless opens no other. */
  lemma {:induction false} DeafFill(ps: seq<Piece>, b: Binding, key: string)
    requires Deaf(ps, key) && Harmless(b.value, key)
    ensures Deaf(Fill(ps, b), key)
  {
    if ps == [] {
    } else {
      DeafFill(ps[1..], b, key);
      if ps[0] == Gap(b.key) {
        DeafChars(b.value, Fill(ps[1..], b), key);
      } else {
        var filled := Fill(ps, b);
        assert filled[0] == ps[0] && filled[1..] == Fill(ps[1..], b);
        LeadingGrows(ps, b);
        hide Hole, Leading, Harmless, Fill;
        if ps[0] == Ch('{') { ApartStays(Leading(ps), Leading(filled), Hole(key)); }
      }
    }
  }

  // ---------- one replacement is one filling ----------

  /** Text without an opening brace is passed over. */
  lemma ReplaceSkipsOne(c: char, rest: string, pat: string, rep: string)
    requires pat != "" && pat[0] == '{' && c != '{'
    ensures Replace([c] + rest, pat, rep) == [c] + Replace(rest, pat, rep)
  {
    assert ([c] + rest)[1..] == rest;
  }

  lemma {:induction false} ReplaceSkips(t: string, rest: string, pat: string, rep: string)
    requires pat != "" && pat[0] == '{' && '{' !in t
    ensures Replace(t + rest, pat, rep) == t + Replace(rest, pat, rep)
  {
    if t == "" {
      assert t + rest == rest;
    } else {
      hide Replace;
      ReplaceSkips(t[1..], rest, pat, rep);
      ReplaceSkipsOne(t[0], t[1..] + rest, pat, rep);
      assert t + rest == [t[0]] + (t[1..] + rest);
      assert [t[0]] + (t[1..] + Replace(rest, pat, rep)) == t + Replace(rest, pat, rep);
    }
  }

  /** At a hole, the placeholder found is that of the hole. */
  lemma HoleMatches(k: string, h: string, rest: string)
    requires Braceless(k) && Braceless(h)
    ensures Hole(k) <= Hole(h) + rest <==> k == h
  {
    var s := Hole(h) + rest;
    assert forall i :: 0 <= i < |k| ==> Hole(k)[i + 1] == k[i];
    assert forall i :: 0 <= i < |h| ==> s[i + 1] == h[i];
    assert Hole(k)[|k| + 1] == '}' && s[|h| + 1] == '}';
    assert |k| == |h| && (forall i :: 0 <= i < |k| ==> k[i] == h[i]) ==> k == h;
    if i :| 0 <= i < |k| && i < |h| && k[i] != h[i] {
      assert Hole(k)[i + 1] != s[i + 1];
    } else if |k| < |h| {
      assert h[|k|] in h;
      assert Hole(k)[|k| + 1] != s[|k| + 1];
    } else if |h| < |k| {
      assert k[|h|] in k;
      assert Hole(k)[|h| + 1] != s[|h| + 1];
    } else {
      assert s[..|Hole(k)|] == Hole(k);
    }
  }

  /** A hole of another name is passed over. */
  lemma ReplacePasses(k: string, rest: string, key: string, rep: string)
    requires Braceless(k) && Braceless(key) && k != key
    ensures Replace(Hole(k) + rest, Hole(key), rep) == Hole(k) + Replace(rest, Hole(key), rep)
  {
    HoleMatches(key, k, rest);
    var s := Hole(k) + rest;
    assert s[1..] == k + "}" + rest;
    ReplaceSkips(k + "}", rest, Hole(key), rep);
    assert s[0] == '{' && ['{'] + (k + "}" + Replace(rest, Hole(key), rep)) == Hole(k) + Replace(rest, Hole(key), rep);
  }

  /** A hole of that name is filled. */
  lemma ReplaceHits(rest: string, key: string, rep: string)
    ensures Replace(Hole(key) + rest, Hole(key), rep) == rep + Replace(rest, Hole(key), rep)
  {
    var s := Hole(key) + rest;
    assert s[..|Hole(key)|] == Hole(key) && s[|Hole(key)|..] == rest;
  }

  lemma {:induction false} ReplaceFills(ps: seq<Piece>, b: Binding)
    requires Deaf(ps, b.key) && Braceless(b.key)
    ensures Replace(Text(ps), Hole(b.key), b.value) == Text(Fill(ps, b))
  {
    if ps == [] {
    } else {
      hide Replace, Hole, Leading, Braceless;
      var rest := Text(ps[1..]);
      ReplaceFills(ps[1..], b);
      OnePiece(ps[0]);
      if ps[0] == Gap(b.key) {
        CharsText(b.value);
        ReplaceHits(rest, b.key, b.value);
        TextAppend(Chars(b.value), Fill(ps[1..], b));
      } else {
        TextAppend([ps[0]], Fill(ps[1..], b));
        if ps[0].Gap? { ReplacePasses(ps[0].key, rest, b.key, b.value); } else { ReplaceChar(ps, b); }
      }
    }
  }

  lemma OnePiece(p: Piece)
    ensures Text([p]) == PieceText(p)
  {
  }

  /** A character of the text, be it a brace, is passed over. */
  lemma ReplaceChar(ps: seq<Piece>, b: Binding)
    requires ps != [] && ps[0].Ch? && DeafFront(ps, b.key)
    ensures var rest := Text(ps[1..]);
      Replace([ps[0].c] + rest, Hole(b.key), b.value) == [ps[0].c] + Replace(rest, Hole(b.key), b.value)
  {
    NoHoleInFront(ps, b.key);
    assert ([ps[0].c] + Text(ps[1..]))[1..] == Text(ps[1..]);
  }

  lemma NoHoleInFront(ps: seq<Piece>, key: string)
    requires ps != [] && ps[0].Ch? && DeafFront(ps, key)
    ensures !(Hole(key) <= Text(ps))
  {
    if ps[0].c == '{' {
      LeadingText(ps);
      ApartStays(Leading(ps), Text(ps), Hole(key));
    }
  }

  /** After the first filling the pieces are deaf to the placeholders that are left. */
  lemma FilledDeaf(ps: seq<Piece>, bs: seq<Binding>)
    requires bs != [] && DeafAll(ps, bs) && KeysPlain(bs) && Quiet(bs)
    ensures DeafAll(Fill(ps, bs[0]), bs[1..]) && KeysPlain(bs[1..]) && Quiet(bs[1..])
  {
    hide Deaf, Harmless, Fill;
    forall b | b in bs[1..] ensures Deaf(Fill(ps, bs[0]), b.key) {
      var j :| 0 <= j < |bs[1..]| && bs[1..][j] == b;
      assert bs[j + 1] == b;
      DeafFill(ps, bs[0], b.key);
    }
    assert forall i :: 0 <= i < |bs| - 1 ==> bs[1..][i] == bs[i + 1];
  }

  lemma {:induction false} SequentialFills(ps: seq<Piece>, bs: seq<Binding>)
    requires DeafAll(ps, bs) && KeysPlain(bs) && Quiet(bs)
    ensures Sequential(Text(ps), bs) == Filled(ps, bs)
    decreases bs
  {
    if bs == [] {
      FilledNone(ps);
    } else {
      hide Replace, Hole, Deaf, Harmless, Quiet;
      assert bs[0] in bs;
      ReplaceFills(ps, bs[0]);
      FilledDeaf(ps, bs);
      SequentialFills(Fill(ps, bs[0]), bs[1..]);
      FillFirst(ps, bs);
    }
  }

  // ---------- the single pass is the same filling ----------

  lemma {:induction false} AtFrontChar(s: string, bs: seq<Binding>)
    requires s != "" && s[0] != '{'
    ensures AtFront(s, bs) == None
  {
    if bs == [] {
    } else {
      AtFrontChar(s, bs[1..]);
    }
  }

  lemma {:induction false} AtFrontGap(k: string, rest: string, bs: seq<Binding>)
    requires Braceless(k) && KeysPlain(bs)
    ensures AtFront(Hole(k) + rest, bs) ==
      match Lookup(bs, k) case Some(v) => Some(Binding(k, v)) case None => None
  {
    if bs == [] {
    } else {
      assert bs[0] in bs;
      HoleMatches(bs[0].key, k, rest);
      AtFrontGap(k, rest, bs[1..]);
    }
  }

  lemma {:induction false} SimultaneousSkips(t: string, rest: string, bs: seq<Binding>)
    requires '{' !in t
    ensures Simultaneous(t + rest, bs) == t + Simultaneous(rest, bs)
  {
    hide AtFront;
    if t == "" {
      assert t + rest == rest;
    } else {
      SimultaneousSkips(t[1..], rest, bs);
      SimultaneousChar(t[0], t[1..] + rest, bs);
      assert t + rest == [t[0]] + (t[1..] + rest);
      assert t == [t[0]] + t[1..];
      Reassociate([t[0]], t[1..], Simultaneous(rest, bs));
      hide Simultaneous;
    }
  }

  lemma SimultaneousChar(c: char, rest: string, bs: seq<Binding>)
    requires c != '{'
    ensures Simultaneous([c] + rest, bs) == [c] + Simultaneous(rest, bs)
  {
    AtFrontChar([c] + rest, bs);
    assert ([c] + rest)[1..] == rest;
  }

  /** The single pass at a hole. */
  lemma SimultaneousGap(k: string, rest: string, bs: seq<Binding>)
    requires Braceless(k) && KeysPlain(bs)
    ensures Simultaneous(Hole(k) + rest, bs) ==
      (match Lookup(bs, k) case Some(v) => v case None => Hole(k)) + Simultaneous(rest, bs)
  {
    AtFrontGap(k, rest, bs);
    var s := Hole(k) + rest;
    assert s[|Hole(k)|..] == rest;
    if Lookup(bs, k).None? {
      assert s[1..] == k + "}" + rest;
      SimultaneousSkips(k + "}", rest, bs);
      assert s[0] == '{' && ['{'] + (k + "}" + Simultaneous(rest, bs)) == Hole(k) + Simultaneous(rest, bs);
    }
  }

  lemma {:induction false} NothingInFront(ps: seq<Piece>, bs: seq<Binding>)
    requires ps != [] && ps[0].Ch? && DeafAll(ps, bs)
    ensures AtFront(Text(ps), bs) == None
  {
    if bs == [] {
    } else {
      assert bs[0] in bs;
      NoHoleInFront(ps, bs[0].key);
      NothingInFront(ps, bs[1..]);
    }
  }

  lemma {:induction false} SimultaneousFills(ps: seq<Piece>, bs: seq<Binding>)
    requires DeafAll(ps, bs) && KeysPlain(bs)
    ensures Simultaneous(Text(ps), bs) == Filled(ps, bs)
  {
    if ps == [] {
    } else if bs == [] {
      FilledNone(ps);
      NoBindings(Text(ps));
    } else {
      hide Simultaneous, Hole, KeysPlain, Leading;
      var rest := Text(ps[1..]);
      SimultaneousFills(ps[1..], bs);
      if ps[0].Gap? {
        assert bs[0] in bs && Deaf(ps, bs[0].key);
        SimultaneousGap(ps[0].key, rest, bs);
      } else {
        NothingInFront(ps, bs);
        OneChar(ps[0].c, rest, bs);
      }
    }
  }

  lemma {:induction false} NoBindings(s: string)
    ensures Simultaneous(s, []) == s
    decreases s
  {
    if s == "" {
    } else {
      NoBindings(s[1..]);
      assert s == [s[0]] + s[1..];
    }
  }

  lemma OneChar(c: char, rest: string, bs: seq<Binding>)
    requires AtFront([c] + rest, bs) == None
    ensures Simultaneous([c] + rest, bs) == [c] + Simultaneous(rest, bs)
  {
    assert ([c] + rest)[1..] == rest;
  }

  lemma {:induction false} FlatDeafAll(ps: seq<Piece>, bs: seq<Binding>)
    requires Flat(ps)
    ensures DeafAll(ps, bs)
  {
    forall b | b in bs ensures Deaf(ps, b.key) { FlatDeaf(ps, b.key); }
  }

  /** For every template whose braces do not nest, and values none of which can start a placeholder that
      is replaced later, replacing one placeholder after the other is one simultaneous substitution. */
  lemma SequentialIsSimultaneous(tpl: string, bs: seq<Binding>)
    requires Unnested(tpl) && KeysPlain(bs) && Quiet(bs)
    ensures Sequential(tpl, bs) == Simultaneous(tpl, bs)
  {
    PiecesText(tpl);
    UnnestedFlat(tpl);
    FlatDeafAll(Pieces(tpl), bs);
    SequentialFills(Pieces(tpl), bs);
    SimultaneousFills(Pieces(tpl), bs);
  }

  // ---------- what a replacement takes away ----------

  /** How many braces open in `s`. */
  function Opens(s: string): nat {
    if s == "" then 0 else (if s[0] == '{' then 1 else 0) + Opens(s[1..])
  }

  lemma {:induction false} OpensConcat(a: string, b: string)
    ensures Opens(a + b) == Opens(a) + Opens(b)
  {
    if a == "" {
      assert a + b == b;
    } else {
      OpensConcat(a[1..], b);
      assert (a + b)[0] == a[0] && (a + b)[1..] == a[1..] + b;
    }
  }

  lemma {:induction false} OpensNone(s: string)
    requires '{' !in s
    ensures Opens(s) == 0
  {
    if s == "" {
    } else {
      OpensNone(s[1..]);
    }
  }

  predicate Occurs(s: string, pat: string) { exists k :: 0 <= k <= |s| && pat <= s[k..] }

  /** A replacement by text without an opening brace takes one away wherever it finds its placeholder. */
  lemma {:induction false} ReplaceLowers(s: string, key: string, rep: string)
    requires '{' !in rep
    ensures Opens(Replace(s, Hole(key), rep)) <= Opens(s)
    ensures Occurs(s, Hole(key)) ==> Opens(Replace(s, Hole(key), rep)) < Opens(s)
    ensures !Occurs(s, Hole(key)) ==> Replace(s, Hole(key), rep) == s
    decreases s
  {
    var pat := Hole(key);
    if s == "" {
    } else if pat <= s {
      var rest := s[|pat|..];
      assert s == pat + rest && s[0..] == s;
      ReplaceLowers(rest, key, rep);
      OpensConcat(pat, rest);
      OpensConcat(rep, Replace(rest, pat, rep));
      OpensNone(rep);
    } else {
      ReplaceLowers(s[1..], key, rep);
      OpensConcat([s[0]], Replace(s[1..], pat, rep));
      OpensConcat([s[0]], s[1..]);
      assert s == [s[0]] + s[1..];
      OccursLater(s, pat);
    }
  }

  lemma OccursLater(s: string, pat: string)
    requires s != "" && !(pat <= s)
    ensures Occurs(s, pat) <==> Occurs(s[1..], pat)
  {
    if k :| 0 <= k <= |s| && pat <= s[k..] {
      assert s[0..] == s;
      assert s[1..][k - 1..] == s[k..];
    }
    if k :| 0 <= k <= |s[1..]| && pat <= s[1..][k..] { assert s[k + 1..] == s[1..][k..]; }
  }

  lemma {:induction false} SequentialLowers(s: string, bs: seq<Binding>)
    requires forall b | b in bs :: '{' !in b.value
    ensures Opens(Sequential(s, bs)) <= Opens(s)
    ensures (exists b | b in bs :: Occurs(s, Hole(b.key))) ==> Opens(Sequential(s, bs)) < Opens(s)
    decreases bs
  {
    if bs == [] {
    } else {
      hide Replace, Hole, Occurs;
      assert bs[0] in bs;
      ReplaceLowers(s, bs[0].key, bs[0].value);
      SequentialLowers(Replace(s, Hole(bs[0].key), bs[0].value), bs[1..]);
      assert forall b | b in bs :: b == bs[0] || b in bs[1..];
    }
  }
}
