/** What serde makes of a profile file (policy.rs). A file is a JSON text by its grammar, a `Doc`, with
    blanks around it; serde is stricter about it than json_lite.c, and it decodes unicode escapes. */
module Serde {
  import opened Decimal
  import opened Wrappers
  import opened JsonSpec
  import opened JsonRoundTrip
  import opened Profile
  import opened Pipeline

  // ---------- strings ----------

  function HexVal(c: char): (n: nat)
    ensures n < 0x10
  {
    if IsDigit(c) then DigitVal(c)
    else if 'a' <= c <= 'f' then (c as int) - ('a' as int) + 10
    else if 'A' <= c <= 'F' then (c as int) - ('A' as int) + 10
    else 0
  }

  /** The number of four hexadecimal digits. */
  function Code(h: string): (n: nat)
    ensures n < 0x1_0000
  {
    if |h| != 4 then 0 else 0x1000 * HexVal(h[0]) + 0x100 * HexVal(h[1]) + 0x10 * HexVal(h[2]) + HexVal(h[3])
  }

  /** By the hexadecimal digits of either case, four places. */
  lemma CodeExactly(a: nat, b: nat, c: nat, d: nat)
    requires a < 16 && b < 16 && c < 16 && d < 16
    ensures var lower, upper := "0123456789abcdef", "0123456789ABCDEF";
      && Code([lower[a], lower[b], lower[c], lower[d]]) == 4096 * a + 256 * b + 16 * c + d
      && Code([upper[a], upper[b], upper[c], upper[d]]) == 4096 * a + 256 * b + 16 * c + d
  {
    DigitExactly(a);
    DigitExactly(b);
    DigitExactly(c);
    DigitExactly(d);
    hide HexVal;
  }

  lemma DigitExactly(a: nat)
    requires a < 16
    ensures HexVal("0123456789abcdef"[a]) == a && HexVal("0123456789ABCDEF"[a]) == a
  {
  }

  /** The UTF-8 bytes of a character. */
  function Utf8Of(cp: nat): (s: string)
    requires cp < 0x11_0000
    ensures s != "" && (s[0] == '?' <==> cp == 0x3f) && ('\0' in s <==> cp == 0)
  {
    if cp < 0x80 then [cp as char]
    else if cp < 0x800 then [(0xC0 + cp / 0x40) as char, (0x80 + cp % 0x40) as char]
    else if cp < 0x1_0000 then
      [(0xE0 + cp / 0x1000) as char, (0x80 + cp / 0x40 % 0x40) as char, (0x80 + cp % 0x40) as char]
    else
      [(0xF0 + cp / 0x4_0000) as char, (0x80 + cp / 0x1000 % 0x40) as char,
       (0x80 + cp / 0x40 % 0x40) as char, (0x80 + cp % 0x40) as char]
  }

  /** The bits of a character, by the length of its form (section 3 of RFC 3629). */
  function Unpacked(s: string): int {
    match |s|
    case 1 => s[0] as int
    case 2 => 64 * ((s[0] as int) - 192) + ((s[1] as int) - 128)
    case 3 => 4096 * ((s[0] as int) - 224) + 64 * ((s[1] as int) - 128) + ((s[2] as int) - 128)
    case 4 =>
      262_144 * ((s[0] as int) - 240) + 4096 * ((s[1] as int) - 128) +
      64 * ((s[2] as int) - 128) + ((s[3] as int) - 128)
    case _ => -1
  }

  /** What is written for a character is well-formed and holds its bits, in the shortest form. */
  lemma Utf8Exactly(cp: nat)
    requires cp < 0x11_0000
    ensures !(0xD800 <= cp < 0xE000) ==> Utf8(Utf8Of(cp))
    ensures Unpacked(Utf8Of(cp)) == cp
    ensures |Utf8Of(cp)| == if cp < 128 then 1 else if cp < 2048 then 2 else if cp < 65_536 then 3 else 4
  {
    if !(0xD800 <= cp < 0xE000) { WellFormed(cp); }
    hide Utf8;
    Places(cp);
  }

  lemma Places(cp: nat)
    ensures cp == 64 * (cp / 0x40) + cp % 0x40
    ensures cp / 0x40 == 64 * (cp / 0x1000) + cp / 0x40 % 0x40
    ensures cp / 0x1000 == 64 * (cp / 0x4_0000) + cp / 0x1000 % 0x40
  {
    assert cp / 0x1000 == cp / 0x40 / 0x40 && cp / 0x4_0000 == cp / 0x1000 / 0x40;
  }

  lemma WellFormed(cp: nat)
    requires cp < 0x11_0000 && !(0xD800 <= cp < 0xE000)
    ensures Utf8(Utf8Of(cp))
  {
    var s := Utf8Of(cp);
    Sextets(cp);
    if cp < 0x80 { assert s[1..] == ""; }
    else if cp < 0x800 { assert s[2..] == ""; }
    else if cp < 0x1_0000 { assert s[3..] == ""; }
    else { assert s[4..] == ""; }
  }

  /** The bounds of the first places, by the length of the form. */
  lemma Sextets(cp: nat)
    requires cp < 0x11_0000
    ensures 0x80 <= cp < 0x800 ==> 2 <= cp / 0x40 < 0x20
    ensures 0x800 <= cp < 0x1_0000 ==>
      && cp / 0x1000 < 0x10 && (cp / 0x1000 == 0 ==> cp / 0x40 % 0x40 >= 0x20)
      && (cp / 0x1000 == 0xD && !(0xD800 <= cp < 0xE000) ==> cp / 0x40 % 0x40 < 0x20)
    ensures 0x1_0000 <= cp ==>
      && cp / 0x4_0000 < 5 && (cp / 0x4_0000 == 0 ==> cp / 0x1000 % 0x40 >= 0x10)
      && (cp / 0x4_0000 == 4 ==> cp / 0x1000 % 0x40 < 0x10)
  {
  }

  predicate IsHigh(n: nat) { 0xD800 <= n < 0xDC00 }

  predicate IsLow(n: nat) { 0xDC00 <= n < 0xE000 }

  function After(front: string, rest: Option<string>): Option<string> {
    match rest case Some(t) => Some(front + t) case None => None
  }

  /** The text of a string; none for a lone surrogate. */
  function Decoded(ks: seq<Chunk>): Option<string> {
    if ks == [] then Some("") else
    match ks[0]
    case Raw(c) => After([c], Decoded(ks[1..]))
    case Short(e) => After([JsonRoundTrip.Escaped(e)], Decoded(ks[1..]))
    case Unicode(h) =>
      var n := Code(h);
      if IsHigh(n) then
        if |ks| > 1 && ks[1].Unicode? && IsLow(Code(ks[1].hex)) then
          After(Utf8Of(0x1_0000 + 0x400 * (n - 0xD800) + (Code(ks[1].hex) - 0xDC00)), Decoded(ks[2..]))
        else None
      else if IsLow(n) then None
      else After(Utf8Of(n), Decoded(ks[1..]))
  }

  /** Characters beyond 16 bits, as the pair of surrogates that stands for them (section 2.1 of RFC 2781). */
  lemma SurrogatesExactly(cp: nat, high: string, low: string)
    requires 0x1_0000 <= cp < 0x11_0000
    requires Code(high) == 0xD800 + (cp - 0x1_0000) / 1024 && Code(low) == 0xDC00 + (cp - 0x1_0000) % 1024
    ensures Decoded([Unicode(high), Unicode(low)]) == Some(Utf8Of(cp))
  {
    var ks := [Unicode(high), Unicode(low)];
    assert ks[2..] == [];
    assert Utf8Of(cp) + "" == Utf8Of(cp);
    hide Code, Utf8Of;
    assert 1024 * ((cp - 0x1_0000) / 1024) + (cp - 0x1_0000) % 1024 == cp - 0x1_0000;
  }

  /** An escape that json_lite.c reads as serde does: `?` is all it knows. */
  predicate PlainChunk(k: Chunk) { k.Unicode? ==> Code(k.hex) == 0x3f }

  predicate PlainChunks(ks: seq<Chunk>) { forall k | k in ks :: PlainChunk(k) }

  /** No control characters. */
  predicate StrictChunks(ks: seq<Chunk>) { forall k | k in ks :: k.Raw? ==> k.c as int >= 0x20 }

  /** Where serde reads a string, json_lite.c reads the same if and only if every unicode escape in it
      is one for `?`. */
  lemma {:induction false} StringsReadAlike(ks: seq<Chunk>)
    requires Decoded(ks).Some?
    ensures Decoded(ks).value == ChunksMean(ks) <==> PlainChunks(ks)
  {
    if ks == [] {
    } else {
      assert ks == [ks[0]] + ks[1..];
      assert PlainChunks(ks) <==> PlainChunk(ks[0]) && PlainChunks(ks[1..]);
      if ks[0].Unicode? && Code(ks[0].hex) != 0x3f {
        assert ChunksMean(ks)[0] == '?' && Decoded(ks).value[0] != '?';
      } else {
        assert Utf8Of(0x3f) == "?";
        StringsReadAlike(ks[1..]);
        SameFront(ChunkMeans(ks[0]), Decoded(ks[1..]).value, ChunksMean(ks[1..]));
      }
    }
  }

  lemma SameFront(c: char, x: string, y: string)
    ensures [c] + x == [c] + y <==> x == y
  {
    assert ([c] + x)[1..] == x && ([c] + y)[1..] == y;
  }

  lemma {:induction false} PlainReads(ks: seq<Chunk>)
    requires PlainChunks(ks)
    ensures Decoded(ks) == Some(ChunksMean(ks))
  {
    if ks == [] {
    } else {
      PlainReads(ks[1..]);
      assert PlainChunk(ks[0]);
      assert Utf8Of(0x3f) == "?";
    }
  }

  lemma {:induction false} NoNul(ks: seq<Chunk>)
    requires ChunksOk(ks) && StrictChunks(ks)
    ensures '\0' !in ChunksMean(ks)
  {
    if ks == [] {
    } else {
      assert ks[0] in ks && ChunkOk(ks[0]);
      NoNul(ks[1..]);
    }
  }

  // ---------- syntax ----------

  /** What the standard demands and json_lite.c does not: no leading zeros, no control characters. */
  predicate Strict(d: Doc) {
    match d
    case DNum(_, digits, _, _) => digits != "" && (|digits| > 1 ==> digits[0] != '0')
    case DStr(ks) => StrictChunks(ks)
    case DArr(_, items) => forall it | it in items :: Strict(it.doc)
    case DObj(_, es) => forall e | e in es :: StrictChunks(e.name) && Strict(e.doc)
    case _ => true
  }

  predicate Trail(c: char) { 0x80 <= c as int < 0xC0 }

  /** Well-formed UTF-8, by the table of section 4 of RFC 3629. */
  predicate Utf8(s: string) {
    s == "" ||
    var c := s[0] as int;
    if c < 0x80 then Utf8(s[1..])
    else if 0xC2 <= c < 0xE0 then |s| > 1 && Trail(s[1]) && Utf8(s[2..])
    else if 0xE0 <= c < 0xF0 then
      |s| > 2 && Trail(s[1]) && Trail(s[2]) && (c == 0xE0 ==> s[1] as int >= 0xA0) &&
      (c == 0xED ==> (s[1] as int) < 0xA0) && Utf8(s[3..])
    else
      0xF0 <= c < 0xF5 && |s| > 3 && Trail(s[1]) && Trail(s[2]) && Trail(s[3]) &&
      (c == 0xF0 ==> s[1] as int >= 0x90) && (c == 0xF4 ==> (s[1] as int) < 0x90) && Utf8(s[4..])
  }

  // ---------- fields ----------

  datatype Field = Missing | Once(doc: Doc) | Twice

  function FieldOf(es: seq<Entry>, key: string): Field {
    if es == [] then Missing else
    var rest := FieldOf(es[1..], key);
    if Decoded(es[0].name) != Some(key) then rest else if rest.Missing? then Once(es[0].doc) else Twice
  }

  predicate KeysRead(es: seq<Entry>) { forall e | e in es :: Decoded(e.name).Some? }

  function ReadString(f: Field): Option<string> {
    match f case Once(DStr(ks)) => Decoded(ks) case _ => None
  }

  function ActionNamed(s: string): (a: Option<Action>)
    ensures a.Some? ==> s == ActionText(a.value)
  {
    if s == "ALLOW" then Some(Allow)
    else if s == "ERRNO" then Some(Errno)
    else if s == "NOTIFY" then Some(Notify)
    else if s == "KILL" then Some(Kill)
    else None
  }

  function ReadAction(f: Field): Option<Action> {
    match ReadString(f) case Some(s) => ActionNamed(s) case None => None
  }

  /** The value of a number without fraction and exponent; serde takes `-0` for a float. */
  function Whole(d: Doc): Option<int> {
    match d
    case DNum(neg, digits, "", "") =>
      if !AllDigits(digits) || (neg && ValueOf(digits) == 0) then None
      else
        var n: int := ValueOf(digits);
        Some(if neg then -n else n)
    case _ => None
  }

  /** An integer field with a default: missing, or a number from `lo` to `hi`. */
  predicate IntField(f: Field, lo: int, hi: int) {
    match f
    case Missing => true
    case Once(d) => Whole(d).Some? && lo <= Whole(d).value <= hi
    case Twice => false
  }

  predicate BoolField(f: Field) { f.Missing? || (f.Once? && (f.doc.DTrue? || f.doc.DFalse?)) }

  const U64_MAX: int := 0xFFFF_FFFF_FFFF_FFFF

  /** An optional section: missing, null, or an object with these fields. */
  predicate Section(f: Field, fits: seq<Entry> -> bool) {
    match f
    case Missing => true
    case Once(DNull) => true
    case Once(DObj(_, es)) => KeysRead(es) && fits(es)
    case _ => false
  }

  predicate ResourcesFit(es: seq<Entry>) {
    && IntField(FieldOf(es, "mem_limit_bytes"), 0, U64_MAX) && IntField(FieldOf(es, "cpu_max_quota"), 0, U64_MAX)
    && IntField(FieldOf(es, "cpu_max_period"), 0, U64_MAX) && IntField(FieldOf(es, "pids_max"), 0, 0xFFFF_FFFF)
  }

  predicate NetworkFits(es: seq<Entry>) {
    BoolField(FieldOf(es, "allow")) && BoolField(FieldOf(es, "allow_dns"))
  }

  // ---------- the profile ----------

  /** `RuleRaw` */
  function ReadRule(d: Doc): Option<RuleDoc> {
    if !d.DObj? || !KeysRead(d.entries) then None else
    var name, action := ReadString(FieldOf(d.entries, "name")), ReadAction(FieldOf(d.entries, "action"));
    var errno := FieldOf(d.entries, "errno");
    if name.None? || action.None? || !IntField(errno, -0x8000_0000, 0x7FFF_FFFF) then None
    else Some(RuleDoc(name.value, action.value, if errno.Once? then Whole(errno.doc) else None))
  }

  function ReadRules(items: seq<Item>): Option<seq<RuleDoc>> {
    if items == [] then Some([]) else
    match (ReadRule(items[0].doc), ReadRules(items[1..]))
    case (Some(r), Some(rest)) => Some([r] + rest)
    case _ => None
  }

  function ReadList(f: Field): Option<seq<RuleDoc>> {
    match f
    case Missing => Some([])
    case Once(DArr(_, items)) => ReadRules(items)
    case _ => None
  }

  /** `ProfileRaw` */
  function ReadProfile(d: Doc): Option<ProfileDoc> {
    if !d.DObj? || !KeysRead(d.entries) then None else
    var es := d.entries;
    var default, rules := ReadAction(FieldOf(es, "default_action")), ReadList(FieldOf(es, "syscall_rules"));
    var description := FieldOf(es, "description");
    if ReadString(FieldOf(es, "name")).None? || default.None? || rules.None? ||
      !(description.Missing? || ReadString(description).Some?) ||
      !Section(FieldOf(es, "resources"), ResourcesFit) || !Section(FieldOf(es, "network"), NetworkFits)
    then None
    else Some(ProfileDoc(default.value, rules.value))
  }

  /** The monitor loads the file `text` as the profile `m`. */
  ghost predicate Loads(text: string, before: string, d: Doc, after: string, m: ProfileDoc) {
    && text == before + (JsonRoundTrip.Text(d) + after) && Blank(before) && Blank(after)
    && Ok(d) && Strict(d) && Utf8(text) && ReadProfile(d) == Some(m)
  }

  // ---------- files that both readers read alike ----------

  /** No unicode escape but for `?`, anywhere. */
  predicate Plain(d: Doc) {
    match d
    case DStr(ks) => PlainChunks(ks)
    case DArr(_, items) => forall it | it in items :: Plain(it.doc)
    case DObj(_, es) => forall e | e in es :: PlainChunks(e.name) && Plain(e.doc)
    case _ => true
  }

  predicate Good(d: Doc) { Ok(d) && Strict(d) && Plain(d) }

  predicate GoodEntry(e: Entry) {
    ChunksOk(e.name) && StrictChunks(e.name) && PlainChunks(e.name) && Good(e.doc)
  }

  predicate GoodEntries(es: seq<Entry>) { EntriesOk(es) && forall e | e in es :: GoodEntry(e) }

  predicate GoodItems(items: seq<Item>) { ItemsOk(items) && forall it | it in items :: Good(it.doc) }

  lemma {:induction false} EntriesGood(es: seq<Entry>)
    requires EntriesOk(es)
    requires forall e | e in es :: StrictChunks(e.name) && Strict(e.doc) && PlainChunks(e.name) && Plain(e.doc)
    ensures GoodEntries(es)
  {
    if es == [] {
    } else {
      assert es[0] in es && es == [es[0]] + es[1..];
      hide StrictChunks, Strict, PlainChunks, Plain, ChunksOk;
      EntriesGood(es[1..]);
    }
  }

  lemma {:induction false} ItemsGood(items: seq<Item>)
    requires ItemsOk(items) && forall it | it in items :: Strict(it.doc) && Plain(it.doc)
    ensures GoodItems(items)
  {
    if items == [] {
    } else {
      assert items[0] in items && items == [items[0]] + items[1..];
      hide Strict, Plain;
      ItemsGood(items[1..]);
    }
  }

  lemma GoodParts(d: Doc)
    requires Good(d)
    ensures d.DObj? ==> GoodEntries(d.entries)
    ensures d.DArr? ==> GoodItems(d.items)
  {
    if d.DObj? {
      assert EntriesOk(d.entries);
      EntriesGood(d.entries);
    }
    if d.DArr? {
      assert ItemsOk(d.items);
      ItemsGood(d.items);
    }
  }

  lemma EntriesStep(es: seq<Entry>)
    requires es != [] && GoodEntries(es)
    ensures GoodEntry(es[0]) && GoodEntries(es[1..])
    ensures EntriesMean(es)[0] == Member(ChunksMean(es[0].name), Means(es[0].doc))
    ensures EntriesMean(es)[1..] == EntriesMean(es[1..])
  {
    assert es[0] in es;
    assert forall e | e in es[1..] :: e in es;
    hide GoodEntry, Means, ChunksMean;
  }

  /** A field that stands once is the member that json_lite.c finds. */
  lemma {:induction false} FieldFound(es: seq<Entry>, key: string)
    requires GoodEntries(es) && '\0' !in key && !FieldOf(es, key).Twice?
    ensures FieldOf(es, key).Once? ==> Good(FieldOf(es, key).doc)
    ensures Find(EntriesMean(es), key) ==
      match FieldOf(es, key) case Once(d) => Some(Means(d)) case _ => None
  {
    if es == [] {
    } else {
      EntriesStep(es);
      PlainReads(es[0].name);
      NoNul(es[0].name);
      CStringWhole(ChunksMean(es[0].name));
      CStringWhole(key);
      hide Good, Means, Decoded, ChunksMean, CString, EntriesMean, GoodEntries;
      FieldFound(es[1..], key);
    }
  }

  /** The same, from the root of the value. */
  lemma MemberFound(d: Doc, key: string)
    requires Good(d) && d.DObj? && '\0' !in key && !FieldOf(d.entries, key).Twice?
    ensures FieldOf(d.entries, key).Once? ==> Good(FieldOf(d.entries, key).doc)
    ensures Get(Means(d), key) == match FieldOf(d.entries, key) case Once(x) => Some(Means(x)) case _ => None
  {
    GoodParts(d);
    FieldFound(d.entries, key);
    hide GoodEntries, Find, FieldOf, EntriesMean;
  }

  /** What both readers make of a string field. */
  lemma StringFound(d: Doc, key: string)
    requires Good(d) && d.DObj? && '\0' !in key && ReadString(FieldOf(d.entries, key)).Some?
    ensures AsStr(Get(Means(d), key)) == ReadString(FieldOf(d.entries, key))
    ensures '\0' !in ReadString(FieldOf(d.entries, key)).value
  {
    MemberFound(d, key);
    var ks := FieldOf(d.entries, key).doc.chunks;
    PlainReads(ks);
    NoNul(ks);
  }

  lemma ActionFound(d: Doc, key: string)
    requires Good(d) && d.DObj? && '\0' !in key && ReadAction(FieldOf(d.entries, key)).Some?
    ensures AsStr(Get(Means(d), key)).Some?
    ensures ParseAction(AsStr(Get(Means(d), key)).value) == ReadAction(FieldOf(d.entries, key))
  {
    StringFound(d, key);
    hide ParseAction;
  }

  lemma ErrnoFound(d: Doc, key: string, libc: Libc)
    requires Good(d) && d.DObj? && '\0' !in key && IntField(FieldOf(d.entries, key), -0x8000_0000, 0x7FFF_FFFF)
    ensures var f := FieldOf(d.entries, key);
      && (f.Once? ==> Whole(f.doc).Some?)
      && ToInt32(AsInt(Get(Means(d), key), 1, libc)) == if f.Once? then Whole(f.doc).value else 1
  {
    MemberFound(d, key);
    hide Get;
  }

  /** A rule that serde reads is the rule that profile.c sees. */
  lemma RuleFound(d: Doc, libc: Libc)
    requires Good(d) && ReadRule(d).Some?
    ensures var r := ReadRule(d).value;
      SeenRule(Means(d), libc) == Some(RuleDoc(r.name, r.action, Some(ErrnoOf(r))))
  {
    hide Ok, Strict, Plain, FieldOf, ReadString, ReadAction, IntField, ParseAction, Whole;
    hide ToInt32, AsInt, CString, Means, KeysRead, Get, AsStr, SeenRule;
    StringFound(d, "name");
    ActionFound(d, "action");
    ErrnoFound(d, "errno", libc);
    var r := ReadRule(d).value;
    CStringWhole(r.name);
    SeenAs(Means(d), libc, r.name, r.action, ErrnoOf(r));
  }

  lemma ItemsStep(items: seq<Item>)
    requires items != [] && GoodItems(items)
    ensures Good(items[0].doc) && GoodItems(items[1..])
    ensures ItemsMean(items)[0] == Means(items[0].doc) && ItemsMean(items)[1..] == ItemsMean(items[1..])
  {
    assert items[0] in items;
    assert forall it | it in items[1..] :: it in items;
    hide Good, Means;
  }

  /** Rule by rule the same name, action and errno. */
  predicate SameRules(c: seq<RuleDoc>, m: seq<RuleDoc>) {
    |c| == |m| && forall i :: 0 <= i < |c| ==> c[i].name == m[i].name && Says(c[i]) == Says(m[i])
  }

  lemma SameStep(x: RuleDoc, c: seq<RuleDoc>, y: RuleDoc, m: seq<RuleDoc>)
    requires x.name == y.name && Says(x) == Says(y) && SameRules(c, m)
    ensures SameRules([x] + c, [y] + m)
  {
  }

  lemma {:induction false} RulesFound(items: seq<Item>, libc: Libc)
    requires GoodItems(items) && ReadRules(items).Some?
    ensures SameRules(Seen(ItemsMean(items), libc), ReadRules(items).value)
  {
    if items == [] {
    } else {
      hide Good, ReadRule, SeenRule, Means, GoodItems, ItemsMean, SameRules;
      ItemsStep(items);
      RuleFound(items[0].doc, libc);
      RulesFound(items[1..], libc);
      var r, x := ReadRule(items[0].doc).value, SeenRule(Means(items[0].doc), libc).value;
      SameStep(x, Seen(ItemsMean(items[1..]), libc), r, ReadRules(items[1..]).value);
    }
  }

  lemma ListFound(d: Doc, libc: Libc)
    requires Good(d) && d.DObj? && ReadList(FieldOf(d.entries, "syscall_rules")).Some?
    ensures SameRules(Seen(ListOf(Means(d)), libc), ReadList(FieldOf(d.entries, "syscall_rules")).value)
  {
    var f := FieldOf(d.entries, "syscall_rules");
    MemberFound(d, "syscall_rules");
    hide Get, FieldOf, ReadRules, Seen;
    if f.Once? {
      GoodParts(f.doc);
      RulesFound(f.doc.items, libc);
    } else {
      NoRules(libc);
    }
  }

  lemma NoRules(libc: Libc)
    ensures Seen([], libc) == [] && ReadRules([]) == Some([])
  {
  }

  /** In a file without unicode escapes both readers see the same profile. */
  lemma PlainFilesReadAlike(d: Doc, m: ProfileDoc, libc: Libc)
    requires Good(d) && ReadProfile(d) == Some(m)
    ensures Alike(CProfile(Means(d), libc), m)
  {
    hide Ok, Strict, Plain, FieldOf, ReadString, ReadAction, ReadList, ParseAction, Seen, Says;
    hide Section, ListOf, Means, KeysRead, Get, AsStr;
    ActionFound(d, "default_action");
    ListFound(d, libc);
  }
}
