/** What the reader accepts. `Spells(t, v)` says, by grammar and not by cursor, which texts stand for a value:
    RFC 8259, and what json_lite.c takes beyond it (any escaped character, unicode escapes of any four
    characters, everything `strtod` reads). A text that is accepted is such a text, so whatever is not one
    is rejected. */
module JsonAccepts {
  import D = Decimal
  import opened JsonSpec
  import opened JsonRoundTrip

  // ---------- strings ----------

  /** No quotation mark that is not behind a backslash. */
  predicate Enclosed(raw: string) {
    if raw == "" then true
    else if raw[0] == '\\' then |raw| > 1 && Enclosed(raw[2..])
    else raw[0] != '"' && Enclosed(raw[1..])
  }

  /** The text between the quotation marks, decoded. A unicode escape takes the four characters behind it,
      whatever they are; if that leaves a lone backslash at the end, it takes the closing mark. */
  function Loosely(raw: string): string
    decreases |raw|
  {
    if raw == "" then ""
    else if raw[0] != '\\' then [raw[0]] + Loosely(raw[1..])
    else if |raw| == 1 then "\""
    else if raw[1] == 'u' then "?" + Loosely(if |raw| > 6 then raw[6..] else "")
    else [Escaped(raw[1])] + Loosely(raw[2..])
  }

  lemma {:induction false} ScanEncloses(s: string, i: nat, q: nat)
    requires i <= q < |s|
    ensures Scan(s, i) == q <==> s[q] == '"' && Enclosed(s[i..q])
    decreases q - i
  {
    if i == q {
    } else if s[i] == '\\' {
      if i + 1 < q {
        assert s[i..q][2..] == s[i + 2..q];
        ScanEncloses(s, i + 2, q);
      }
    } else {
      assert s[i..q][1..] == s[i + 1..q];
      ScanEncloses(s, i + 1, q);
    }
  }

  lemma EscapesAlike(e: char)
    ensures Unescape(e) == if e == 'u' then '?' else Escaped(e)
    ensures Escaped('"') == '"'
  {
  }

  lemma {:induction false} DecodesLoosely(s: string, p: nat, q: nat)
    requires p <= q < |s| && s[q] == '"'
    ensures Decode(s, p, q) == Loosely(s[p..q])
    decreases q - p
  {
    EscapesAlike(s[if p < q then p + 1 else q]);
    hide Unescape, Escaped;
    if p == q {
    } else if s[p] != '\\' {
      assert s[p..q][1..] == s[p + 1..q];
      DecodesLoosely(s, p + 1, q);
    } else if p + 1 < q {
      var w := EscapeWidth(s[p + 1]);
      if p + w <= q {
        assert s[p..q][w..] == s[p + w..q];
        DecodesLoosely(s, p + w, q);
      }
    }
  }

  /** Exactly which texts are read as a string, and to what. */
  lemma StringExactly(s: string, p: nat, t: string, e: nat)
    requires p <= |s|
    ensures String(s, p) == Good(t, e) <==>
      p + 2 <= e <= |s| && s[p] == '"' && s[e - 1] == '"' && Enclosed(s[p + 1..e - 1]) && t == Loosely(s[p + 1..e - 1])
  {
    if p < |s| && s[p] == '"' {
      var q := Scan(s, p + 1);
      if q < |s| {
        ScanEncloses(s, p + 1, q);
        DecodesLoosely(s, p + 1, q);
      }
      if p + 2 <= e <= |s| { ScanEncloses(s, p + 1, e - 1); }
    }
  }

  // ---------- numbers ----------

  predicate HexDigits(t: string) { forall c | c in t :: c in "0123456789abcdefABCDEF" }

  predicate DecimalParts(t: string, a: string, f: string, x: string) {
    && t == a + (f + x) && D.AllDigits(a) && (f == "" || (f[0] == '.' && D.AllDigits(f[1..])))
    && (a != "" || |f| > 1) && ExpOk(x)
  }

  /** `x` is a binary exponent. */
  predicate PowerOk(x: string) { x == "" || ((x[0] == 'p' || x[0] == 'P') && ExpOk(['e'] + x[1..])) }

  predicate HexParts(t: string, m: char, a: string, f: string, x: string) {
    && t == ['0', m] + (a + (f + x)) && (m == 'x' || m == 'X') && HexDigits(a)
    && (f == "" || (f[0] == '.' && HexDigits(f[1..]))) && (a != "" || |f| > 1) && PowerOk(x)
  }

  /** The word `w` in letters of either case. */
  predicate IsWord(t: string, w: string) {
    |t| == |w| && forall i :: 0 <= i < |t| ==> t[i] == w[i] || (t[i] as int) + 32 == w[i] as int
  }

  predicate TagChar(c: char) { '0' <= c <= '9' || 'a' <= c <= 'z' || 'A' <= c <= 'Z' || c == '_' }

  predicate WordText(t: string) {
    || IsWord(t, "inf") || IsWord(t, "infinity") || IsWord(t, "nan")
    || (|t| >= 5 && IsWord(t[..3], "nan") && t[3] == '(' && t[|t| - 1] == ')' &&
        forall c | c in t[4..|t| - 1] :: TagChar(c))
  }

  /** What `strtod` takes for a number without its sign. */
  ghost predicate Magnitude(t: string) {
    || (exists a, f, x :: DecimalParts(t, a, f, x))
    || (exists m, a, f, x :: HexParts(t, m, a, f, x))
    || WordText(t)
  }

  predicate Digits(t: string) { t != "" && D.AllDigits(t) }

  /** A number with its value: an integer if it is digits and at most a sign, and its own text otherwise. */
  ghost predicate SpellsNumber(t: string, v: Json) {
    if Digits(t) then v == Int(Bounded(D.ValueOf(t)))
    else if t != "" && t[0] == '-' && Digits(t[1..]) then v == Int(Bounded(0 - D.ValueOf(t[1..])))
    else v == Num(t) && t != "" && (Magnitude(t) || (t[0] == '-' && Magnitude(t[1..])))
  }

  lemma DigitsSpan(s: string, p: nat, q: nat)
    requires p <= |s|
    ensures D.AllDigits(s[p..DigitsEnd(s, p)])
    ensures p <= q <= |s| && D.AllDigits(s[p..q]) ==> q <= DigitsEnd(s, p)
  {
    var e := DigitsEnd(s, p);
    if e < q <= |s| { assert !D.IsDigit(s[p..q][e - p]); }
  }

  lemma ExpSpan(s: string, p: nat)
    requires p <= |s|
    ensures ExpOk(s[p..ExpEnd(s, p)])
  {
    if p < |s| && (s[p] == 'e' || s[p] == 'E') { PowerSpan(s, p); }
  }

  /** What stands behind an exponent mark: a sign at most, and digits. */
  lemma PowerSpan(s: string, p: nat)
    requires p < |s|
    ensures var q := PowerEnd(s, p);
      q > p ==> ExpOk(['e'] + s[p + 1..q]) && (s[p] == 'e' || s[p] == 'E' ==> ExpOk(s[p..q]))
  {
    var d := if p + 1 < |s| && (s[p + 1] == '+' || s[p + 1] == '-') then p + 2 else p + 1;
    var q := DigitsEnd(s, d);
    if q > d {
      var x := s[p..q];
      assert x[d - p..] == s[d..q] && (['e'] + s[p + 1..q])[d - p..] == s[d..q];
    }
  }

  lemma FracSpan(s: string, p: nat)
    requires p <= |s|
    ensures var f := s[p..FracEnd(s, p)]; f == "" || (f[0] == '.' && D.AllDigits(f[1..]))
  {
    if p < |s| && s[p] == '.' { assert s[p..FracEnd(s, p)][1..] == s[p + 1..FracEnd(s, p)]; }
  }

  /** A decimal number that was read. */
  lemma DecimalSpan(s: string, p: nat, a: nat)
    requires p <= a <= |s| && DecimalEnd(s, p, a) != p
    ensures var e := DecimalEnd(s, p, a);
      a < e && Magnitude(s[a..e]) && (D.AllDigits(s[a..e]) <==> e == DigitsEnd(s, a))
  {
    hide ExpOk, D.IsDigit, ExpEnd, FracEnd, DigitsEnd, D.AllDigits;
    var b := DigitsEnd(s, a);
    var c := FracEnd(s, b);
    var e := ExpEnd(s, c);
    DigitsSpan(s, a, e);
    FracSpan(s, b);
    ExpSpan(s, c);
    Parts(s, a, b, c, e);
    assert DecimalParts(s[a..e], s[a..b], s[b..c], s[c..e]);
  }

  lemma Parts(s: string, a: nat, b: nat, c: nat, e: nat)
    requires a <= b <= c <= e <= |s|
    ensures s[a..e] == s[a..b] + (s[b..c] + s[c..e])
  {
  }

  lemma {:induction false} HexSpan(s: string, p: nat)
    requires p <= |s|
    ensures HexDigits(s[p..HexEnd(s, p)])
    decreases |s| - p
  {
    if p == |s| || !IsHex(s[p]) {
    } else {
      HexSpan(s, p + 1);
      assert s[p..HexEnd(s, p)] == [s[p]] + s[p + 1..HexEnd(s, p)];
      HexDigit(s[p]);
    }
  }

  lemma HexDigit(c: char)
    ensures IsHex(c) <==> c in "0123456789abcdefABCDEF"
  {
    var all := "0123456789abcdefABCDEF";
    if D.IsDigit(c) { assert all[c as int - '0' as int] == c; }
    else if 'a' <= c <= 'f' { assert all[c as int - 'a' as int + 10] == c; }
    else if 'A' <= c <= 'F' { assert all[c as int - 'A' as int + 16] == c; }
  }

  lemma HexFracSpan(s: string, p: nat)
    requires p <= |s|
    ensures HexDigits(s[p..HexEnd(s, p)]) && HexEnd(s, p) <= HexFracEnd(s, p)
    ensures var f := s[HexEnd(s, p)..HexFracEnd(s, p)]; f == "" || (f[0] == '.' && HexDigits(f[1..]))
  {
    hide HexDigits;
    var b, c := HexEnd(s, p), HexFracEnd(s, p);
    HexSpan(s, p);
    if b < |s| && s[b] == '.' {
      HexSpan(s, b + 1);
      assert s[b..c][1..] == s[b + 1..c];
    }
  }

  lemma HexPowerSpan(s: string, a: nat)
    requires HexAt(s, a)
    ensures var c, e := HexFracEnd(s, a + 2), HexNumberEnd(s, a); c <= e && PowerOk(s[c..e])
  {
    var c, e := HexFracEnd(s, a + 2), HexNumberEnd(s, a);
    hide HexFracEnd, PowerEnd, HexEnd, ExpOk;
    if c < e {
      PowerSpan(s, c);
      assert s[c..e][1..] == s[c + 1..e];
    }
  }

  lemma HexNumberSpan(s: string, a: nat)
    requires a <= |s| && HexAt(s, a)
    ensures var e := HexNumberEnd(s, a); a < e && Magnitude(s[a..e]) && !D.AllDigits(s[a..e])
  {
    hide HexDigits, PowerOk, HexEnd, HexFracEnd, HexNumberEnd;
    var b, c, e := HexEnd(s, a + 2), HexFracEnd(s, a + 2), HexNumberEnd(s, a);
    HexFracSpan(s, a + 2);
    HexPowerSpan(s, a);
    var t := s[a..e];
    assert t[1] == s[a + 1] && !D.IsDigit(t[1]);
    Parts(s, a + 2, b, c, e);
    assert t == ['0', s[a + 1]] + s[a + 2..e];
    assert HexParts(t, s[a + 1], s[a + 2..b], s[b..c], s[c..e]);
  }

  lemma WordSpan(s: string, a: nat, w: string)
    requires WordAt(s, a, w)
    ensures a + |w| <= |s| && IsWord(s[a..a + |w|], w)
  {
    forall i | 0 <= i < |w| ensures s[a + i] == w[i] || (s[a + i] as int) + 32 == w[i] as int {
      assert Lower(s[a + i]) == w[i];
    }
  }

  lemma {:induction false} TagSpan(s: string, p: nat)
    requires p <= |s|
    ensures forall c | c in s[p..TagEnd(s, p)] :: TagChar(c)
    decreases |s| - p
  {
    if p == |s| || !IsTagChar(s[p]) {
    } else {
      TagSpan(s, p + 1);
      assert s[p..TagEnd(s, p)] == [s[p]] + s[p + 1..TagEnd(s, p)];
    }
  }

  lemma NanSpan(s: string, a: nat)
    requires WordAt(s, a, "nan") && a + 3 <= |s|
    ensures var e := NanEnd(s, a + 3); a < e <= |s| && WordText(s[a..e]) && !D.AllDigits(s[a..e])
  {
    var e := NanEnd(s, a + 3);
    var t := s[a..e];
    WordSpan(s, a, "nan");
    assert Lower(s[a]) == 'n' && t[0] == s[a];
    assert t[..3] == s[a..a + 3];
    if e > a + 3 {
      TagSpan(s, a + 4);
      assert t[4..|t| - 1] == s[a + 4..e - 1];
    } else {
      assert t == s[a..a + 3];
    }
  }

  /** A number that was read. */
  lemma NumberSpells(s: string, p: nat)
    requires p < |s| && Number(s, p).Good?
    ensures SpellsNumber(s[p..Number(s, p).pos], Number(s, p).value)
  {
    hide WordText, IsWord, DecimalEnd, HexNumberEnd, NanEnd, WordAt, HexAt, Magnitude, ExpOk;
    var a, e := SignEnd(s, p), StrtodEnd(s, p);
    var t := s[p..e];
    MagnitudeSpan(s, p, a);
    if a == p + 1 { assert t[0] == '-' && t[1..] == s[a..e]; }
  }

  lemma MagnitudeSpan(s: string, p: nat, a: nat)
    requires p < |s| && a == SignEnd(s, p) && StrtodEnd(s, p) != p
    ensures var e := StrtodEnd(s, p);
      a < e && Magnitude(s[a..e]) && (D.AllDigits(s[a..e]) <==> e == DigitsEnd(s, a))
  {
    hide DecimalEnd, HexNumberEnd, NanEnd, HexAt;
    DigitsSpan(s, a, StrtodEnd(s, p));
    if WordAt(s, a, "infinity") { WordSpan(s, a, "infinity"); }
    else if WordAt(s, a, "inf") { WordSpan(s, a, "inf"); }
    else if WordAt(s, a, "nan") { NanSpan(s, a); }
    else if HexAt(s, a) { HexNumberSpan(s, a); }
    else { DecimalSpan(s, p, a); }
  }

  // ---------- values ----------

  predicate SpellsString(t: string, x: string) {
    |t| >= 2 && t[0] == '"' && t[|t| - 1] == '"' && Enclosed(t[1..|t| - 1]) && x == Loosely(t[1..|t| - 1])
  }

  /** `t` is a text that stands for `v`. */
  ghost predicate Spells(t: string, v: Json)
    decreases v, 0
  {
    match v
    case Null => t == "null"
    case Bool(b) => t == if b then "true" else "false"
    case Int(_) => SpellsNumber(t, v)
    case Num(_) => SpellsNumber(t, v)
    case Str(x) => SpellsString(t, x)
    case Arr(vs) =>
      && |t| >= 2 && t[0] == '[' && t[|t| - 1] == ']'
      && if vs == [] then Blank(t[1..|t| - 1]) else SpellsElems(t[1..|t| - 1], vs)
    case Obj(ms) =>
      && |t| >= 2 && t[0] == '{' && t[|t| - 1] == '}'
      && if ms == [] then Blank(t[1..|t| - 1]) else SpellsMembers(t[1..|t| - 1], ms)
  }

  /** A value with blanks around it. */
  ghost predicate Padded(t: string, v: Json)
    decreases v, 1
  {
    exists i, j :: 0 <= i <= j <= |t| && Blank(t[..i]) && Spells(t[i..j], v) && Blank(t[j..])
  }

  /** Values with commas between them. */
  ghost predicate SpellsElems(t: string, vs: seq<Json>)
    requires vs != []
    decreases vs, 0
  {
    if |vs| == 1 then Padded(t, vs[0]) else
    exists i :: 0 <= i < |t| && t[i] == ',' && Padded(t[..i], vs[0]) && SpellsElems(t[i + 1..], vs[1..])
  }

  predicate PaddedName(t: string, x: string) {
    exists i, j :: 0 <= i <= j <= |t| && Blank(t[..i]) && SpellsString(t[i..j], x) && Blank(t[j..])
  }

  /** A name, a colon and a value. */
  ghost predicate PaddedPair(t: string, m: Member)
    decreases m, 0
  {
    exists i :: 0 <= i < |t| && t[i] == ':' && PaddedName(t[..i], m.name) && Padded(t[i + 1..], m.value)
  }

  ghost predicate SpellsMembers(t: string, ms: seq<Member>)
    requires ms != []
    decreases ms, 0
  {
    if |ms| == 1 then PaddedPair(t, ms[0]) else
    exists i :: 0 <= i < |t| && t[i] == ',' && PaddedPair(t[..i], ms[0]) && SpellsMembers(t[i + 1..], ms[1..])
  }

  // ---------- what is accepted is spelled ----------

  lemma {:induction false} BlanksSkipped(s: string, p: nat)
    requires p <= |s|
    ensures Blank(s[p..SkipWs(s, p)]) && SkipWs(s, SkipWs(s, p)) == SkipWs(s, p)
    decreases |s| - p
  {
    if p == |s| || !IsWs(s[p]) {
    } else {
      BlanksSkipped(s, p + 1);
      assert s[p..SkipWs(s, p)] == [s[p]] + s[p + 1..SkipWs(s, p)];
    }
  }

  lemma Slices(s: string, p: nat, i: nat, j: nat, r: nat)
    requires p <= i <= j <= r <= |s|
    ensures s[p..r][..i - p] == s[p..i]
    ensures s[p..r][i - p..j - p] == s[i..j]
    ensures s[p..r][j - p..] == s[j..r]
  {
    var t := s[p..r];
    var m, n := t[i - p..j - p], t[j - p..];
    assert |m| == j - i && |n| == r - j;
    assert forall k :: 0 <= k < |m| ==> m[k] == t[i - p + k] == s[i + k];
    assert forall k :: 0 <= k < |n| ==> n[k] == t[j - p + k] == s[j + k];
  }

  /** A value between blanks. */
  lemma SurroundedSpells(s: string, p: nat, i: nat, j: nat, r: nat, v: Json)
    requires p <= i <= j <= r <= |s| && Blank(s[p..i]) && Spells(s[i..j], v) && Blank(s[j..r])
    ensures Padded(s[p..r], v)
  {
    hide Blank, Spells;
    var t := s[p..r];
    Slices(s, p, i, j, r);
    assert Spells(t[i - p..j - p], v);
  }

  lemma StringSpells(s: string, p: nat)
    requires p <= |s| && String(s, p).Good?
    ensures SpellsString(s[p..String(s, p).pos], String(s, p).value)
  {
    var e := String(s, p).pos;
    StringExactly(s, p, String(s, p).value, e);
    Slices(s, p, p + 1, e - 1, e);
  }

  /** Every text that is accepted stands for the value it is read to. */
  lemma {:induction false} ValueSpells(s: string, p: nat)
    requires p <= |s| && Value(s, p).Good?
    ensures var q, e := SkipWs(s, p), Value(s, p).pos;
      q <= e && Blank(s[p..q]) && Spells(s[q..e], Value(s, p).value)
    decreases |s| - p, 1
  {
    hide String, Number, Object, Array, Blank, SpellsNumber, SpellsString;
    BlanksSkipped(s, p);
    var q := SkipWs(s, p);
    if s[q] == '{' { ObjectSpells(s, q); }
    else if s[q] == '[' { ArraySpells(s, q); }
    else if s[q] == '"' { StringSpells(s, q); }
    else if At(s, q, "true") || At(s, q, "false") || At(s, q, "null") { }
    else { NumberSpells(s, q); }
  }

  lemma {:induction false} ArraySpells(s: string, p: nat)
    requires p < |s| && s[p] == '[' && Array(s, p).Good?
    ensures Spells(s[p..Array(s, p).pos], Array(s, p).value)
    decreases |s| - p, 0
  {
    hide Elements, Blank, SkipWs, SpellsElems;
    var q, e := SkipWs(s, p + 1), Array(s, p).pos;
    BlanksSkipped(s, p + 1);
    if q < |s| && s[q] == ']' {
      Slices(s, p, p + 1, q, e);
    } else {
      ElementsSkip(s, p + 1, q);
      var vs := ElementsSpell(s, p + 1, []);
      assert [] + vs == vs;
      Slices(s, p, p + 1, e - 1, e);
    }
  }

  /** Blanks in front of the elements do not matter. */
  lemma ElementsSkip(s: string, p: nat, q: nat)
    requires p <= q <= |s| && SkipWs(s, p) == q && SkipWs(s, q) == q && Elements(s, q, []).Good?
    ensures p < |s| && Elements(s, p, []) == Elements(s, q, [])
  {
    hide Value, SkipWs;
    assert q < |s| && Value(s, q).Good?;
    hide Elements;
    ElementsStep(s, p, [], Value(s, q).value, Value(s, q).pos, q);
  }

  lemma {:induction false} ElementsSpell(s: string, p: nat, acc: seq<Json>) returns (vs: seq<Json>)
    requires p <= |s| && Elements(s, p, acc).Good?
    ensures var e := Elements(s, p, acc).pos;
      && vs != [] && Elements(s, p, acc).value == Arr(acc + vs) && p < e <= |s| && s[e - 1] == ']'
      && SpellsElems(s[p..e - 1], vs)
    decreases |s| - p, 3
  {
    hide Value, Padded;
    var q := SkipWs(s, p);
    var v := Value(s, q).value;
    var r := SkipWs(s, Value(s, q).pos);
    hide SkipWs;
    ElementSpells(s, p);
    if s[r] == ',' {
      var rest := ElementsSpell(s, r + 1, acc + [v]);
      var e := Elements(s, p, acc).pos;
      vs := [v] + rest;
      assert acc + [v] + rest == acc + vs;
      MoreElems(s, p, r, e - 1, v, rest);
    } else {
      vs := [v];
    }
  }

  /** One element, up to the mark behind it. */
  lemma {:induction false} ElementSpells(s: string, p: nat)
    requires p <= |s| && Value(s, SkipWs(s, p)).Good?
    ensures var q := SkipWs(s, p);
      var r := SkipWs(s, Value(s, q).pos);
      p <= r && Padded(s[p..r], Value(s, q).value)
    decreases |s| - p, 2
  {
    hide Value, Blank, Spells, Padded;
    BlanksSkipped(s, p);
    var q := SkipWs(s, p);
    var j := Value(s, q).pos;
    ValueSpells(s, q);
    BlanksSkipped(s, j);
    SurroundedSpells(s, p, q, j, SkipWs(s, j), Value(s, q).value);
  }

  lemma MoreElems(s: string, p: nat, r: nat, e: nat, v: Json, rest: seq<Json>)
    requires p <= r < e <= |s| && s[r] == ',' && Padded(s[p..r], v) && rest != [] && SpellsElems(s[r + 1..e], rest)
    ensures SpellsElems(s[p..e], [v] + rest)
  {
    hide Padded;
    var t, vs := s[p..e], [v] + rest;
    assert t[..r - p] == s[p..r] && t[r - p + 1..] == s[r + 1..e] && vs[1..] == rest;
    assert t[r - p] == ',';
  }

  lemma {:induction false} ObjectSpells(s: string, p: nat)
    requires p < |s| && s[p] == '{' && Object(s, p).Good?
    ensures Spells(s[p..Object(s, p).pos], Object(s, p).value)
    decreases |s| - p, 0
  {
    hide Members, Blank, SkipWs, SpellsMembers;
    var q, e := SkipWs(s, p + 1), Object(s, p).pos;
    BlanksSkipped(s, p + 1);
    if q < |s| && s[q] == '}' {
      Slices(s, p, p + 1, q, e);
    } else {
      MembersSkip(s, p + 1, q);
      var ms := MembersSpell(s, p + 1, []);
      assert [] + ms == ms;
      Slices(s, p, p + 1, e - 1, e);
    }
  }

  lemma PairSkips(s: string, p: nat, q: nat)
    requires p <= q <= |s| && SkipWs(s, p) == q && SkipWs(s, q) == q
    ensures Pair(s, p) == Pair(s, q)
  {
    hide String, Value, SkipWs;
  }

  lemma MembersSkip(s: string, p: nat, q: nat)
    requires p <= q <= |s| && SkipWs(s, p) == q && SkipWs(s, q) == q && Members(s, q, []).Good?
    ensures p < |s| && Members(s, p, []) == Members(s, q, [])
  {
    hide Pair, SkipWs;
    assert q < |s| && Pair(s, q).Good?;
    hide Members;
    PairSkips(s, p, q);
    MembersStep(s, p, [], Pair(s, q).value, Pair(s, q).pos, q);
  }

  lemma {:induction false} MembersSpell(s: string, p: nat, acc: seq<Member>) returns (ms: seq<Member>)
    requires p <= |s| && Members(s, p, acc).Good?
    ensures var e := Members(s, p, acc).pos;
      && ms != [] && Members(s, p, acc).value == Obj(acc + ms) && p < e <= |s| && s[e - 1] == '}'
      && SpellsMembers(s[p..e - 1], ms)
    decreases |s| - p, 3
  {
    hide Pair, Blank, Spells, Padded, PaddedPair;
    var m, j := Pair(s, p).value, Pair(s, p).pos;
    var r := SkipWs(s, j);
    PairSpells(s, p);
    if s[r] == ',' {
      var rest := MembersSpell(s, r + 1, acc + [m]);
      var e := Members(s, p, acc).pos;
      ms := [m] + rest;
      assert acc + [m] + rest == acc + ms;
      MoreMembers(s, p, r, e - 1, m, rest);
    } else {
      ms := [m];
    }
  }

  lemma MoreMembers(s: string, p: nat, r: nat, e: nat, m: Member, rest: seq<Member>)
    requires p <= r < e <= |s| && s[r] == ',' && PaddedPair(s[p..r], m)
    requires rest != [] && SpellsMembers(s[r + 1..e], rest)
    ensures SpellsMembers(s[p..e], [m] + rest)
  {
    hide PaddedPair;
    var t, ms := s[p..e], [m] + rest;
    assert t[..r - p] == s[p..r] && t[r - p + 1..] == s[r + 1..e] && ms[1..] == rest;
    assert t[r - p] == ',';
  }

  /** One member, up to the mark behind it. */
  lemma {:induction false} PairSpells(s: string, p: nat)
    requires p <= |s| && Pair(s, p).Good?
    ensures var r := SkipWs(s, Pair(s, p).pos); p <= r && PaddedPair(s[p..r], Pair(s, p).value)
    decreases |s| - p, 2
  {
    hide String, Value, Blank, Spells, SpellsString;
    var a := SkipWs(s, p);
    var name, b := String(s, a).value, String(s, a).pos;
    var c := SkipWs(s, b);
    var g := SkipWs(s, c + 1);
    var v, e := Value(s, g).value, Value(s, g).pos;
    var r := SkipWs(s, e);
    BlanksSkipped(s, p);
    StringSpells(s, a);
    BlanksSkipped(s, b);
    NameSpells(s, p, a, b, c, name);
    BlanksSkipped(s, c + 1);
    ValueSpells(s, g);
    BlanksSkipped(s, e);
    SurroundedSpells(s, c + 1, g, e, r, v);
    PairJoins(s, p, c, r, Member(name, v));
  }

  lemma NameSpells(s: string, p: nat, a: nat, b: nat, c: nat, name: string)
    requires p <= a <= b <= c <= |s| && Blank(s[p..a]) && SpellsString(s[a..b], name) && Blank(s[b..c])
    ensures PaddedName(s[p..c], name)
  {
    hide Blank, SpellsString;
    var t := s[p..c];
    Slices(s, p, a, b, c);
    assert SpellsString(t[a - p..b - p], name);
  }

  lemma PairJoins(s: string, p: nat, c: nat, r: nat, m: Member)
    requires p <= c < r <= |s| && s[c] == ':' && PaddedName(s[p..c], m.name) && Padded(s[c + 1..r], m.value)
    ensures PaddedPair(s[p..r], m)
  {
    hide PaddedName, Padded;
    var t := s[p..r];
    assert t[c - p] == ':' && t[..c - p] == s[p..c] && t[c - p + 1..] == s[c + 1..r];
  }
}
