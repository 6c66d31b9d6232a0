/** Profile files written out, and what both readers make of them: every profile can be written down so
    that they agree about it, and an escape is enough to make them differ. */
module ProfileFiles {
  import D = Decimal
  import opened Wrappers
  import opened JsonSpec
  import opened JsonRoundTrip
  import opened Profile
  import opened Pipeline
  import opened Serde

  /** A rule as it is written: its name with the escapes of the file. */
  datatype Line = Line(name: seq<Chunk>, action: Action, errno: Option<int>)

  function Written(key: string, d: Doc): Entry { Entry("", StringDoc(key), "", "", d, "") }

  function StringOf(t: string): Doc { DStr(StringDoc(t)) }

  function NumberOf(i: int): Doc { DNum(i < 0, D.Text(if i < 0 then -i else i), "", "") }

  function Optional(key: string, d: Option<Doc>): seq<Entry> {
    match d case Some(z) => [Written(key, z)] case None => []
  }

  /** Two members, and a third that may be missing. */
  function TwoAndOptional(a: string, x: Doc, b: string, y: Doc, key: string, z: Option<Doc>): seq<Entry> {
    [Written(a, x)] + ([Written(b, y)] + Optional(key, z))
  }

  function ErrnoDoc(errno: Option<int>): Option<Doc> {
    match errno case Some(e) => Some(NumberOf(e)) case None => None
  }

  function LineEntries(l: Line): seq<Entry> {
    TwoAndOptional("name", DStr(l.name), "action", StringOf(ActionText(l.action)), "errno", ErrnoDoc(l.errno))
  }

  function LineDoc(l: Line): Doc { DObj("", LineEntries(l)) }

  function LineItems(lines: seq<Line>): seq<Item> {
    if lines == [] then [] else [Item("", LineDoc(lines[0]), "")] + LineItems(lines[1..])
  }

  function FileEntries(name: string, default: Action, lines: seq<Line>): seq<Entry> {
    TwoAndOptional("name", StringOf(name), "default_action", StringOf(ActionText(default)),
      "syscall_rules", Some(DArr("", LineItems(lines))))
  }

  /** The profile file with these rules. */
  function FileDoc(name: string, default: Action, lines: seq<Line>): Doc { DObj("", FileEntries(name, default, lines)) }

  // ---------- ASCII ----------

  predicate Ascii(t: string) { forall c | c in t :: (c as int) < 0x80 }

  /** ASCII without control characters. */
  predicate Legible(t: string) { forall c | c in t :: 0x20 <= (c as int) < 0x80 }

  predicate AsciiChunks(ks: seq<Chunk>) { forall k | k in ks :: k.Raw? ==> (k.c as int) < 0x80 }

  lemma {:induction false} AsciiIsUtf8(t: string)
    requires Ascii(t)
    ensures Utf8(t)
  {
    if t == "" {
    } else {
      assert t[0] in t && forall c | c in t[1..] :: c in t;
      AsciiIsUtf8(t[1..]);
    }
  }

  lemma {:induction false} ChunksAscii(ks: seq<Chunk>)
    requires ChunksOk(ks) && AsciiChunks(ks)
    ensures Ascii(ChunksText(ks))
  {
    if ks == [] {
    } else {
      assert ks[0] in ks;
      ChunksAscii(ks[1..]);
    }
  }

  lemma LegibleChar(c: char)
    requires 0x20 <= (c as int) < 0x80
    ensures CharDoc(c).Raw? || CharDoc(c).Short?
    ensures CharDoc(c).Raw? ==> CharDoc(c).c == c
    ensures CharDoc(c).Short? ==> JsonRoundTrip.Escaped(CharDoc(c).e) == c
  {
  }

  lemma {:induction false} LegibleChunks(t: string)
    requires Legible(t)
    ensures Decoded(StringDoc(t)) == Some(t)
    ensures StrictChunks(StringDoc(t)) && AsciiChunks(StringDoc(t)) && PlainChunks(StringDoc(t))
  {
    if t == "" {
    } else {
      assert t[0] in t && forall c | c in t[1..] :: c in t;
      LegibleChar(t[0]);
      hide CharDoc, JsonRoundTrip.Escaped;
      LegibleChunks(t[1..]);
    }
  }

  /** What is required of a document below the root: syntax that serde takes, in ASCII. */
  predicate Clean(d: Doc) { Ok(d) && Strict(d) && Ascii(JsonRoundTrip.Text(d)) }

  predicate CleanEntry(e: Entry) {
    && e.before == e.colon == e.gap == e.after == ""
    && ChunksOk(e.name) && StrictChunks(e.name) && AsciiChunks(e.name) && Decoded(e.name).Some? && Clean(e.doc)
  }

  predicate CleanEntries(es: seq<Entry>) { forall e | e in es :: CleanEntry(e) }

  lemma {:induction false} EntriesAscii(es: seq<Entry>)
    requires es != [] && CleanEntries(es)
    ensures EntriesOk(es) && Ascii(EntriesText(es))
  {
    var e := es[0];
    assert e in es;
    ChunksAscii(e.name);
    hide Ok, Strict, JsonRoundTrip.Text, ChunksText, ChunksOk;
    if |es| == 1 {
    } else {
      EntriesAscii(es[1..]);
    }
  }

  lemma CleanObject(es: seq<Entry>)
    requires es != [] && CleanEntries(es)
    ensures Clean(DObj("", es)) && KeysRead(es)
  {
    EntriesAscii(es);
    hide Ok, EntriesText, ChunksOk;
    assert Ok(DObj("", es)) by { ObjectOk(es); }
  }

  lemma ObjectOk(es: seq<Entry>)
    requires EntriesOk(es)
    ensures Ok(DObj("", es))
  {
  }

  // ---------- what the readers find ----------

  lemma CleanNumber(i: int)
    ensures Clean(NumberOf(i)) && Whole(NumberOf(i)) == Some(i)
  {
    D.TextDenotes(if i < 0 then -i else i);
    assert forall c | c in NumberOf(i).digits :: D.IsDigit(c);
  }

  lemma CleanString(ks: seq<Chunk>)
    requires ChunksOk(ks) && StrictChunks(ks) && AsciiChunks(ks)
    ensures Clean(DStr(ks))
  {
    ChunksAscii(ks);
  }

  lemma CleanWritten(key: string, d: Doc)
    requires Legible(key) && Clean(d)
    ensures CleanEntry(Written(key, d))
  {
    LegibleChunks(key);
  }

  /** What the two lookups find in front of more entries. */
  lemma WrittenFirst(key: string, d: Doc, rest: seq<Entry>, k: string)
    requires Legible(key) && '\0' !in k && Ok(d) && EntriesOk(rest)
    ensures EntriesOk([Written(key, d)] + rest)
    ensures FieldOf([Written(key, d)] + rest, k) ==
      if key != k then FieldOf(rest, k) else if FieldOf(rest, k).Missing? then Once(d) else Twice
    ensures Find(EntriesMean([Written(key, d)] + rest), k) ==
      if key != k then Find(EntriesMean(rest), k) else Some(Means(d))
  {
    LegibleChunks(key);
    CStringWhole(key);
    CStringWhole(k);
    assert ([Written(key, d)] + rest)[1..] == rest;
    hide Ok, Means, StringDoc, Decoded, CString;
  }

  /** Both readers find the member `k`, and no other of that name. */
  predicate Has(es: seq<Entry>, k: string, d: Doc) {
    EntriesOk(es) && Ok(d) && FieldOf(es, k) == Once(d) && Find(EntriesMean(es), k) == Some(Means(d))
  }

  predicate Lacks(es: seq<Entry>, k: string) {
    EntriesOk(es) && FieldOf(es, k) == Missing && Find(EntriesMean(es), k) == None
  }

  lemma FoundFirst(key: string, d: Doc, rest: seq<Entry>)
    requires Legible(key) && Ok(d) && Lacks(rest, key)
    ensures Has([Written(key, d)] + rest, key, d)
  {
    WrittenFirst(key, d, rest, key);
  }

  lemma FoundLater(key: string, d: Doc, rest: seq<Entry>, k: string, x: Doc)
    requires Legible(key) && Legible(k) && key != k && Ok(d)
    ensures Has(rest, k, x) ==> Has([Written(key, d)] + rest, k, x)
    ensures Lacks(rest, k) ==> Lacks([Written(key, d)] + rest, k)
  {
    if EntriesOk(rest) { WrittenFirst(key, d, rest, k); }
  }

  lemma NothingFound(k: string)
    ensures Lacks([], k)
  {
  }

  lemma OptionalFound(key: string, z: Option<Doc>, k: string)
    requires Legible(key) && Legible(k) && (z.Some? ==> Ok(z.value))
    ensures z.Some? && k == key ==> Has(Optional(key, z), k, z.value)
    ensures z.None? || k != key ==> Lacks(Optional(key, z), k)
  {
    hide Has, Lacks, Ok;
    NothingFound(k);
    match z
    case None =>
    case Some(d) =>
      assert Optional(key, z) == [Written(key, d)] + [];
      if k == key { FoundFirst(key, d, []); } else { FoundLater(key, d, [], k, d); }
  }

  /** Every member is found under its own key. */
  lemma MembersFound(a: string, x: Doc, b: string, y: Doc, key: string, z: Option<Doc>)
    requires Legible(a) && Legible(b) && Legible(key) && a != b && a != key && b != key
    requires Ok(x) && Ok(y) && (z.Some? ==> Ok(z.value))
    ensures var es := TwoAndOptional(a, x, b, y, key, z);
      && Has(es, a, x) && Has(es, b, y)
      && (match z case Some(d) => Has(es, key, d) case None => Lacks(es, key))
  {
    hide Has, Lacks, Ok, Legible, Written, Optional;
    var rest, d := Optional(key, z), if z.Some? then z.value else x;
    OptionalFound(key, z, a);
    OptionalFound(key, z, b);
    OptionalFound(key, z, key);
    FoundFirst(b, y, rest);
    FoundLater(b, y, rest, a, x);
    FoundLater(b, y, rest, key, d);
    FoundFirst(a, x, [Written(b, y)] + rest);
    FoundLater(a, x, [Written(b, y)] + rest, b, y);
    FoundLater(a, x, [Written(b, y)] + rest, key, d);
  }

  lemma OthersLacking(a: string, x: Doc, b: string, y: Doc, key: string, z: Option<Doc>, k: string)
    requires Legible(a) && Legible(b) && Legible(key) && Legible(k) && k != a && k != b && k != key
    requires Ok(x) && Ok(y) && (z.Some? ==> Ok(z.value))
    ensures Lacks(TwoAndOptional(a, x, b, y, key, z), k)
  {
    hide Has, Lacks, Ok, Legible, Written, Optional;
    OptionalFound(key, z, k);
    FoundLater(b, y, Optional(key, z), k, x);
    FoundLater(a, x, [Written(b, y)] + Optional(key, z), k, x);
  }

  lemma MembersClean(a: string, x: Doc, b: string, y: Doc, key: string, z: Option<Doc>)
    requires Legible(a) && Legible(b) && Legible(key) && Clean(x) && Clean(y) && (z.Some? ==> Clean(z.value))
    ensures CleanEntries(TwoAndOptional(a, x, b, y, key, z))
  {
    hide Clean, CleanEntry;
    CleanWritten(a, x);
    CleanWritten(b, y);
    if z.Some? { CleanWritten(key, z.value); }
  }

  predicate LineOk(l: Line) {
    && ChunksOk(l.name) && StrictChunks(l.name) && AsciiChunks(l.name) && Decoded(l.name).Some?
    && (l.errno.Some? ==> D.Int32(l.errno.value))
  }

  /** What serde reads in a line, and what profile.c sees in it: the name with its escapes decoded, or with
      a question mark for each. */
  function Decodes(l: Line): RuleDoc
    requires LineOk(l)
  {
    RuleDoc(Decoded(l.name).value, l.action, l.errno)
  }

  function Shows(l: Line): RuleDoc {
    RuleDoc(CString(ChunksMean(l.name)), l.action, Some(match l.errno case Some(e) => e case None => 1))
  }

  lemma ActionIsRead(a: Action)
    ensures Legible(ActionText(a)) && ActionNamed(ActionText(a)) == Some(a) && ParseAction(ActionText(a)) == Some(a)
  {
  }

  lemma StringIsClean(t: string)
    requires Legible(t)
    ensures Clean(StringOf(t)) && Decoded(StringDoc(t)) == Some(t)
  {
    LegibleChunks(t);
    CleanString(StringDoc(t));
  }

  lemma KeysLegible()
    ensures Legible("name") && Legible("action") && Legible("errno")
  {
  }

  lemma RootKeysLegible()
    ensures Legible("name") && Legible("default_action") && Legible("syscall_rules")
    ensures Legible("description") && Legible("resources") && Legible("network")
  {
  }

  /** The members of a line. */
  predicate LineHas(l: Line, es: seq<Entry>) {
    && Has(es, "name", DStr(l.name)) && Has(es, "action", StringOf(ActionText(l.action)))
    && (match l.errno case Some(e) => Has(es, "errno", NumberOf(e)) case None => Lacks(es, "errno"))
  }

  lemma LineFound(l: Line)
    requires LineOk(l)
    ensures LineHas(l, LineEntries(l)) && CleanEntries(LineEntries(l))
  {
    var action := StringOf(ActionText(l.action));
    ActionIsRead(l.action);
    StringIsClean(ActionText(l.action));
    CleanString(l.name);
    KeysLegible();
    if l.errno.Some? { CleanNumber(l.errno.value); }
    hide TwoAndOptional, StringOf, ActionText, CleanEntries, Legible, LineOk, Has, Lacks, NumberOf, Strict, Ascii;
    MembersFound("name", DStr(l.name), "action", action, "errno", ErrnoDoc(l.errno));
    MembersClean("name", DStr(l.name), "action", action, "errno", ErrnoDoc(l.errno));
  }

  lemma MemberSeen(es: seq<Entry>, k: string, d: Doc)
    requires Has(es, k, d)
    ensures Get(Means(DObj("", es)), k) == Some(Means(d))
  {
    hide Find, EntriesMean;
  }

  /** serde decodes the line, profile.c sees a question mark for each unicode escape. */
  lemma LineReads(l: Line, libc: Libc)
    requires LineOk(l)
    ensures Clean(LineDoc(l)) && Serde.ReadRule(LineDoc(l)) == Some(Decodes(l))
    ensures SeenRule(Means(LineDoc(l)), libc) == Some(Shows(l))
  {
    var es := LineEntries(l);
    LineFound(l);
    CleanObject(es);
    LineDecoded(l, es);
    LineSeen(l, es, libc);
  }

  lemma LineDecoded(l: Line, es: seq<Entry>)
    requires LineOk(l) && LineHas(l, es) && KeysRead(es)
    ensures Serde.ReadRule(DObj("", es)) == Some(Decodes(l))
  {
    StringDecoded(es, "name", l.name);
    ActionDecoded(es, "action", l.action);
    ErrnoDecoded(l, es, "errno");
    hide FieldOf, KeysRead, ReadString, ReadAction, IntField, Whole, Decoded, Has, Lacks;
  }

  lemma StringDecoded(es: seq<Entry>, k: string, ks: seq<Chunk>)
    requires Has(es, k, DStr(ks))
    ensures ReadString(FieldOf(es, k)) == Decoded(ks)
  {
  }

  lemma ActionDecoded(es: seq<Entry>, k: string, a: Action)
    requires Has(es, k, StringOf(ActionText(a)))
    ensures ReadAction(FieldOf(es, k)) == Some(a)
  {
    StringDecoded(es, k, StringDoc(ActionText(a)));
    ActionIsRead(a);
    StringIsClean(ActionText(a));
    hide ActionText, ActionNamed, ReadString, Has;
  }

  lemma ErrnoDecoded(l: Line, es: seq<Entry>, k: string)
    requires LineOk(l) && match l.errno case Some(e) => Has(es, k, NumberOf(e)) case None => Lacks(es, k)
    ensures IntField(FieldOf(es, k), -0x8000_0000, 0x7FFF_FFFF)
    ensures (if FieldOf(es, k).Once? then Whole(FieldOf(es, k).doc) else None) == l.errno
  {
    if l.errno.Some? { CleanNumber(l.errno.value); }
    hide NumberOf, Whole, Clean;
  }

  lemma NumberSeen(es: seq<Entry>, k: string, i: int, libc: Libc)
    requires Has(es, k, NumberOf(i)) && D.Int32(i)
    ensures ToInt32(AsInt(Get(Means(DObj("", es)), k), 1, libc)) == i
  {
    MemberSeen(es, k, NumberOf(i));
    D.TextDenotes(if i < 0 then -i else i);
    hide Get, Has;
  }

  lemma StringSeen(es: seq<Entry>, k: string, ks: seq<Chunk>)
    requires Has(es, k, DStr(ks))
    ensures AsStr(Get(Means(DObj("", es)), k)) == Some(ChunksMean(ks))
  {
    MemberSeen(es, k, DStr(ks));
    hide Get;
  }

  lemma NothingSeen(es: seq<Entry>, k: string, libc: Libc)
    requires Lacks(es, k)
    ensures ToInt32(AsInt(Get(Means(DObj("", es)), k), 1, libc)) == 1
  {
    hide Find, EntriesMean;
  }

  lemma LineSeen(l: Line, es: seq<Entry>, libc: Libc)
    requires LineOk(l) && LineHas(l, es)
    ensures SeenRule(Means(DObj("", es)), libc) == Some(Shows(l))
  {
    hide Has, Lacks, Get, Means, SeenRule, CString, ToInt32, AsStr, AsInt, ChunksMean, LineOk, ParseAction;
    hide ActionText, StringDoc, Ok;
    ObjectHas(es, "name", DStr(l.name));
    StringSeen(es, "name", l.name);
    StringSeen(es, "action", StringDoc(ActionText(l.action)));
    ErrnoSeen(l, es, libc);
    assert ParseAction(ActionText(l.action)) == Some(l.action);
    SeenAs(Means(DObj("", es)), libc, ChunksMean(l.name), l.action, ErrnoOf(Shows(l)));
  }

  lemma ObjectHas(es: seq<Entry>, k: string, d: Doc)
    requires Has(es, k, d)
    ensures Ok(DObj("", es))
  {
  }

  lemma ErrnoSeen(l: Line, es: seq<Entry>, libc: Libc)
    requires LineOk(l) && LineHas(l, es) && Ok(DObj("", es))
    ensures ToInt32(AsInt(Get(Means(DObj("", es)), "errno"), 1, libc)) == ErrnoOf(Shows(l))
  {
    hide Has, Lacks, Get, Means, CString, ToInt32, AsInt, ChunksMean, ActionText, StringDoc;
    match l.errno case Some(e) => NumberSeen(es, "errno", e, libc); case None => NothingSeen(es, "errno", libc);
  }

  // ---------- the whole file ----------

  predicate LinesOk(lines: seq<Line>) { forall l | l in lines :: LineOk(l) }

  function DecodesAll(lines: seq<Line>): seq<RuleDoc>
    requires LinesOk(lines)
  {
    if lines == [] then [] else [Decodes(lines[0])] + DecodesAll(lines[1..])
  }

  function ShowsAll(lines: seq<Line>): seq<RuleDoc> {
    if lines == [] then [] else [Shows(lines[0])] + ShowsAll(lines[1..])
  }

  lemma LinesSplit(lines: seq<Line>)
    requires LinesOk(lines) && lines != []
    ensures LineOk(lines[0]) && LinesOk(lines[1..])
  {
    assert lines[0] in lines && forall l | l in lines[1..] :: l in lines;
    hide LineOk;
  }

  lemma RulesStep(it: Item, rest: seq<Item>)
    requires Serde.ReadRule(it.doc).Some? && ReadRules(rest).Some?
    ensures ReadRules([it] + rest) == Some([Serde.ReadRule(it.doc).value] + ReadRules(rest).value)
  {
    hide Serde.ReadRule;
    assert ([it] + rest)[1..] == rest;
  }

  lemma {:induction false} LinesDecoded(lines: seq<Line>)
    requires LinesOk(lines)
    ensures ReadRules(LineItems(lines)) == Some(DecodesAll(lines))
  {
    if lines == [] {
    } else {
      hide Serde.ReadRule, Decodes, LineDoc, LineOk, LinesOk, ReadRules;
      LinesSplit(lines);
      LineReads(lines[0], Libc(n => None, t => 0));
      LinesDecoded(lines[1..]);
      RulesStep(Item("", LineDoc(lines[0]), ""), LineItems(lines[1..]));
    }
  }

  predicate CleanItems(items: seq<Item>) { forall it | it in items :: it.before == it.after == "" && Clean(it.doc) }

  lemma {:induction false} ItemsAscii(items: seq<Item>)
    requires items != [] && CleanItems(items)
    ensures ItemsOk(items) && Ascii(ItemsText(items))
  {
    assert items[0] in items;
    hide Ok, Strict, JsonRoundTrip.Text;
    if |items| == 1 {
    } else {
      ItemsAscii(items[1..]);
    }
  }

  lemma {:induction false} LinesClean(lines: seq<Line>)
    requires LinesOk(lines)
    ensures CleanItems(LineItems(lines))
  {
    if lines == [] {
    } else {
      LinesSplit(lines);
      hide LinesOk, LineDoc, LineOk, Clean;
      LineReads(lines[0], Libc(n => None, t => 0));
      LinesClean(lines[1..]);
    }
  }

  lemma ListClean(items: seq<Item>)
    requires CleanItems(items)
    ensures Clean(DArr("", items)) && ItemsOk(items)
  {
    if items == [] {
    } else {
      ItemsAscii(items);
      hide Ok, ItemsText;
      ArrayOk(items);
    }
  }

  lemma ArrayOk(items: seq<Item>)
    requires ItemsOk(items)
    ensures Ok(DArr("", items))
  {
  }

  lemma {:induction false} LinesSeen(lines: seq<Line>, libc: Libc)
    requires LinesOk(lines) && ItemsOk(LineItems(lines))
    ensures Seen(ItemsMean(LineItems(lines)), libc) == ShowsAll(lines)
  {
    if lines == [] {
    } else {
      LinesSplit(lines);
      hide LinesOk, Serde.ReadRule, SeenRule, Shows, LineDoc, LineOk, Ok, Means;
      LineReads(lines[0], libc);
      LinesSeen(lines[1..], libc);
      var it, rest := Means(LineDoc(lines[0])), ItemsMean(LineItems(lines[1..]));
      assert ([it] + rest)[0] == it && ([it] + rest)[1..] == rest;
    }
  }

  /** The members of the root. */
  predicate FileHas(es: seq<Entry>, name: string, default: Action, lines: seq<Line>) {
    && Has(es, "name", StringOf(name)) && Has(es, "default_action", StringOf(ActionText(default)))
    && Has(es, "syscall_rules", DArr("", LineItems(lines)))
    && Lacks(es, "description") && Lacks(es, "resources") && Lacks(es, "network")
  }

  lemma FileFound(name: string, default: Action, lines: seq<Line>)
    requires Legible(name) && LinesOk(lines)
    ensures FileHas(FileEntries(name, default, lines), name, default, lines)
    ensures CleanEntries(FileEntries(name, default, lines))
  {
    var x, y, z := StringOf(name), StringOf(ActionText(default)), DArr("", LineItems(lines));
    ActionIsRead(default);
    StringIsClean(name);
    StringIsClean(ActionText(default));
    LinesClean(lines);
    ListClean(LineItems(lines));
    RootKeysLegible();
    hide TwoAndOptional, StringOf, ActionText, CleanEntries, Legible, LinesOk, Has, Lacks, Strict, Ascii;
    hide LineItems, CleanItems;
    MembersFound("name", x, "default_action", y, "syscall_rules", Some(z));
    MembersClean("name", x, "default_action", y, "syscall_rules", Some(z));
    OthersLacking("name", x, "default_action", y, "syscall_rules", Some(z), "description");
    OthersLacking("name", x, "default_action", y, "syscall_rules", Some(z), "resources");
    OthersLacking("name", x, "default_action", y, "syscall_rules", Some(z), "network");
  }

  /** What serde reads in the fields of the root. */
  lemma FieldsRead(es: seq<Entry>, name: string, default: Action, lines: seq<Line>)
    requires LinesOk(lines) && Legible(name) && FileHas(es, name, default, lines)
    ensures ReadString(FieldOf(es, "name")).Some? && ReadAction(FieldOf(es, "default_action")) == Some(default)
    ensures ReadList(FieldOf(es, "syscall_rules")) == Some(DecodesAll(lines))
    ensures FieldOf(es, "description").Missing?
    ensures FieldOf(es, "resources").Missing? && FieldOf(es, "network").Missing?
  {
    hide FieldOf, StringDoc, Legible, Decoded, LinesOk, LineItems, ReadString, ReadAction, ReadRules, DecodesAll;
    hide Find, EntriesMean, EntriesOk, Ok, ActionText;
    LinesDecoded(lines);
    StringIsClean(name);
    StringDecoded(es, "name", StringDoc(name));
    ActionDecoded(es, "default_action", default);
  }

  lemma FileDecoded(es: seq<Entry>, name: string, default: Action, lines: seq<Line>)
    requires LinesOk(lines) && Legible(name) && FileHas(es, name, default, lines) && KeysRead(es)
    ensures ReadProfile(DObj("", es)) == Some(ProfileDoc(default, DecodesAll(lines)))
  {
    hide FieldOf, ReadString, ReadAction, ReadList, DecodesAll, FileHas, KeysRead, Legible, LinesOk;
    FieldsRead(es, name, default, lines);
  }

  lemma FileSeen(es: seq<Entry>, name: string, default: Action, lines: seq<Line>, libc: Libc)
    requires LinesOk(lines) && FileHas(es, name, default, lines)
    ensures Ok(DObj("", es)) && CProfile(Means(DObj("", es)), libc) == ProfileDoc(default, ShowsAll(lines))
  {
    hide Has, Lacks, Get, Means, ParseAction, ActionText, StringDoc, ChunksMean, Ok, LinesOk, LineItems, Seen, ShowsAll;
    ObjectHas(es, "name", StringOf(name));
    StringSeen(es, "default_action", StringDoc(ActionText(default)));
    ListSeen(es, "syscall_rules", lines, libc);
    assert ParseAction(ActionText(default)) == Some(default);
  }

  lemma ListSeen(es: seq<Entry>, k: string, lines: seq<Line>, libc: Libc)
    requires LinesOk(lines) && Has(es, k, DArr("", LineItems(lines)))
    ensures ItemsOk(LineItems(lines)) && Ok(DObj("", es))
    ensures Get(Means(DObj("", es)), k) == Some(Arr(ItemsMean(LineItems(lines))))
    ensures Seen(ItemsMean(LineItems(lines)), libc) == ShowsAll(lines)
  {
    hide Get, LineItems, LinesOk, Seen, ItemsMean, ShowsAll, Find, FieldOf, EntriesMean;
    assert Ok(DObj("", es));
    MemberSeen(es, k, DArr("", LineItems(lines)));
    hide Has;
    LinesClean(lines);
    ListClean(LineItems(lines));
    LinesSeen(lines, libc);
  }

  /** The monitor loads the written file, with every name decoded; profile.c sees each name with a question
      mark for every unicode escape in it. */
  lemma WrittenFilesRead(name: string, default: Action, lines: seq<Line>, libc: Libc)
    requires Legible(name) && LinesOk(lines)
    ensures var d := FileDoc(name, default, lines);
      && Ok(d) && Loads(JsonRoundTrip.Text(d), "", d, "", ProfileDoc(default, DecodesAll(lines)))
      && CProfile(Means(d), libc) == ProfileDoc(default, ShowsAll(lines))
  {
    var es := FileEntries(name, default, lines);
    FileFound(name, default, lines);
    hide FileEntries, FileHas, LinesOk, CProfile, ReadProfile, Legible, DecodesAll, ShowsAll;
    CleanObject(es);
    FileDecoded(es, name, default, lines);
    FileSeen(es, name, default, lines, libc);
    CleanLoads(FileDoc(name, default, lines), ProfileDoc(default, DecodesAll(lines)));
  }

  lemma CleanLoads(d: Doc, m: ProfileDoc)
    requires Clean(d) && ReadProfile(d) == Some(m)
    ensures Loads(JsonRoundTrip.Text(d), "", d, "", m)
  {
    var t := JsonRoundTrip.Text(d);
    AsciiIsUtf8(t);
    hide Ok, Strict, Utf8, ReadProfile, Ascii, JsonRoundTrip.Text;
    assert "" + (t + "") == t;
  }

  /** Of a written file both readers see the same if and only if no name in it has a unicode escape other
      than that of `?`. */
  lemma {:induction false} SeeAlikeExactly(default: Action, lines: seq<Line>)
    requires LinesOk(lines)
    ensures Alike(ProfileDoc(default, ShowsAll(lines)), ProfileDoc(default, DecodesAll(lines))) <==>
      forall l | l in lines :: PlainChunks(l.name)
  {
    hide LineOk, Shows, Decodes, PlainChunks;
    AllIndexed(lines);
    forall i | 0 <= i < |lines|
      ensures var c, m := Shows(lines[i]), Decodes(lines[i]);
        c.name == m.name && Says(c) == Says(m) <==> PlainChunks(lines[i].name)
    {
      LineAlikeExactly(lines[i]);
    }
    hide Says;
  }

  lemma {:induction false} AllIndexed(lines: seq<Line>)
    requires LinesOk(lines)
    ensures |ShowsAll(lines)| == |DecodesAll(lines)| == |lines|
    ensures forall i :: 0 <= i < |lines| ==>
      ShowsAll(lines)[i] == Shows(lines[i]) && DecodesAll(lines)[i] == Decodes(lines[i])
  {
    if lines == [] {
    } else {
      hide LineOk, Shows, Decodes;
      AllIndexed(lines[1..]);
    }
  }

  lemma LineAlikeExactly(l: Line)
    requires LineOk(l)
    ensures var c, m := Shows(l), Decodes(l); c.name == m.name && Says(c) == Says(m) <==> PlainChunks(l.name)
  {
    StringsReadAlike(l.name);
    NoNul(l.name);
    CStringWhole(ChunksMean(l.name));
  }

  // ---------- every profile has a file ----------

  function LineOf(r: RuleDoc): Line { Line(StringDoc(r.name), r.action, r.errno) }

  function LinesOf(rules: seq<RuleDoc>): seq<Line> {
    if rules == [] then [] else [LineOf(rules[0])] + LinesOf(rules[1..])
  }

  /** What can be written without an escape: legible names, and numbers that serde takes. */
  predicate Writable(rules: seq<RuleDoc>) {
    forall r | r in rules :: Legible(r.name) && (r.errno.Some? ==> D.Int32(r.errno.value))
  }

  lemma LineWritten(r: RuleDoc)
    requires Legible(r.name) && (r.errno.Some? ==> D.Int32(r.errno.value))
    ensures LineOk(LineOf(r)) && Decodes(LineOf(r)) == r && PlainChunks(LineOf(r).name)
  {
    LegibleChunks(r.name);
    hide StringDoc, Decoded;
  }

  lemma WritableRest(rules: seq<RuleDoc>)
    requires Writable(rules) && rules != []
    ensures Legible(rules[0].name) && (rules[0].errno.Some? ==> D.Int32(rules[0].errno.value)) && Writable(rules[1..])
  {
    assert rules[0] in rules && forall r | r in rules[1..] :: r in rules;
    hide Legible, D.Int32;
  }

  lemma {:induction false} LinesWritten(rules: seq<RuleDoc>)
    requires Writable(rules)
    ensures LinesOk(LinesOf(rules)) && DecodesAll(LinesOf(rules)) == rules
    ensures forall l | l in LinesOf(rules) :: PlainChunks(l.name)
  {
    if rules == [] {
    } else {
      hide Writable, LineOf, LineOk, Decodes, PlainChunks, Legible, D.Int32;
      WritableRest(rules);
      LineWritten(rules[0]);
      LinesWritten(rules[1..]);
    }
  }

  /** Every profile with legible names can be written down: the monitor loads the file as this profile, and
      profile.c sees the same in it. */
  lemma EveryProfileHasAFile(name: string, m: ProfileDoc, libc: Libc)
    requires Legible(name) && Writable(m.rules)
    ensures var d := FileDoc(name, m.default, LinesOf(m.rules));
      Ok(d) && Loads(JsonRoundTrip.Text(d), "", d, "", m) && Alike(CProfile(Means(d), libc), m)
  {
    hide FileDoc, Loads, CProfile, Alike, Writable, Legible, LinesOf, DecodesAll, ShowsAll, PlainChunks;
    LinesWritten(m.rules);
    WrittenFilesRead(name, m.default, LinesOf(m.rules), libc);
    SeeAlikeExactly(m.default, LinesOf(m.rules));
  }

  // ---------- an escape is enough ----------

  /** A name whose character at `i` is written as a unicode escape. */
  function Escaped(name: string, i: nat, hex: string): seq<Chunk>
    requires i < |name|
  {
    StringDoc(name[..i]) + ([Unicode(hex)] + StringDoc(name[i + 1..]))
  }

  /** Chunks behind plain text. */
  lemma {:induction false} TextInFront(t: string, ks: seq<Chunk>)
    requires Decoded(ks).Some?
    ensures Decoded(StringDoc(t) + ks) == Some(t + Decoded(ks).value)
    ensures ChunksMean(StringDoc(t) + ks) == t + ChunksMean(ks)
  {
    if t == "" {
      assert StringDoc(t) + ks == ks;
      NothingInFront(Decoded(ks).value);
      NothingInFront(ChunksMean(ks));
    } else {
      hide Decoded, ChunksMean;
      FirstInFront(t, ks);
      hide StringDoc, CharDoc;
      TextInFront(t[1..], ks);
      CharInFront(t[0], StringDoc(t[1..]) + ks);
      Regrouped(t, Decoded(ks).value);
      Regrouped(t, ChunksMean(ks));
    }
  }

  lemma FirstInFront(t: string, ks: seq<Chunk>)
    requires t != ""
    ensures StringDoc(t) + ks == [CharDoc(t[0])] + (StringDoc(t[1..]) + ks)
  {
    hide CharDoc;
  }

  lemma CharInFront(c: char, ks: seq<Chunk>)
    ensures Decoded([CharDoc(c)] + ks) == After([c], Decoded(ks))
    ensures ChunksMean([CharDoc(c)] + ks) == [c] + ChunksMean(ks)
  {
    hide Code, Utf8Of, IsHigh, IsLow, StringDoc;
    var all := [CharDoc(c)] + ks;
    assert all[0] == CharDoc(c) && all[1..] == ks;
  }

  lemma NothingInFront(t: string)
    ensures "" + t == t
  {
  }

  lemma Regrouped(t: string, rest: string)
    requires t != ""
    ensures [t[0]] + (t[1..] + rest) == t + rest
  {
  }

  /** serde reads the name, json_lite.c the name with a question mark in it. */
  lemma EscapedReads(name: string, i: nat, hex: string)
    requires i < |name| && Legible(name) && Code(hex) == name[i] as int
    ensures Decoded(Escaped(name, i, hex)) == Some(name) && ChunksMean(Escaped(name, i, hex)) == name[i := '?']
  {
    var c, back := name[i], name[i + 1..];
    assert c in name && forall x | x in back :: x in name;
    LegibleChunks(back);
    EscapeInFront(c, hex, StringDoc(back));
    hide Decoded, ChunksMean, StringDoc, Code;
    TextInFront(name[..i], [Unicode(hex)] + StringDoc(back));
    Replaced(name, i, c);
    Replaced(name, i, '?');
  }

  lemma Replaced(name: string, i: nat, c: char)
    requires i < |name|
    ensures name[..i] + ([c] + name[i + 1..]) == name[i := c] && name[i := name[i]] == name
  {
  }

  lemma EscapeInFront(c: char, hex: string, ks: seq<Chunk>)
    requires (c as int) < 0x80 && Code(hex) == c as int
    ensures Decoded([Unicode(hex)] + ks) == After([c], Decoded(ks))
    ensures ChunksMean([Unicode(hex)] + ks) == ['?'] + ChunksMean(ks)
  {
    hide Code;
    assert ([Unicode(hex)] + ks)[1..] == ks;
  }

  lemma LegiblePart(t: string, i: nat, j: nat)
    requires Legible(t) && i <= j <= |t|
    ensures Legible(t[i..j])
  {
    forall c | c in t[i..j] ensures c in t {
      var k :| 0 <= k < |t[i..j]| && t[i..j][k] == c;
      assert t[i + k] == c;
    }
  }

  lemma EscapedIsClean(name: string, i: nat, hex: string)
    requires i < |name| && Legible(name) && ChunkOk(Unicode(hex))
    ensures ChunksOk(Escaped(name, i, hex)) && StrictChunks(Escaped(name, i, hex)) && AsciiChunks(Escaped(name, i, hex))
  {
    LegiblePart(name, 0, i);
    LegiblePart(name, i + 1, |name|);
    assert name[i + 1..|name|] == name[i + 1..];
    LegibleChunks(name[..i]);
    LegibleChunks(name[i + 1..]);
    hide StringDoc, Legible, Decoded, ChunkOk;
    CleanAround(StringDoc(name[..i]), Unicode(hex), StringDoc(name[i + 1..]));
  }

  lemma CleanAround(a: seq<Chunk>, k: Chunk, b: seq<Chunk>)
    requires ChunksOk(a) && StrictChunks(a) && AsciiChunks(a) && ChunksOk(b) && StrictChunks(b) && AsciiChunks(b)
    requires ChunkOk(k) && k.Unicode?
    ensures ChunksOk(a + ([k] + b)) && StrictChunks(a + ([k] + b)) && AsciiChunks(a + ([k] + b))
  {
    hide ChunkOk;
  }

  /** One NOTIFY rule under an ALLOW default, with an escape in its name, as `soc\u006bet` for `socket`: the
      monitor has a rule for the call, and the table of profile.c has none. */
  lemma EscapeDiffers(libc: Libc, name: string, i: nat, hex: string)
    requires i < |name| && Legible(name) && ChunkOk(Unicode(hex)) && Code(hex) == name[i] as int
    requires libc.resolve(name).Some? && libc.resolve(name[i := '?']).None?
    ensures var lines := [Line(Escaped(name, i, hex), Notify, None)];
      var d, m := FileDoc("p", Allow, lines), ProfileDoc(Allow, [RuleDoc(name, Notify, None)]);
      Ok(d) && Loads(JsonRoundTrip.Text(d), "", d, "", m) && !ReadersAgree(CProfile(Means(d), libc), m, libc)
  {
    var l := Line(Escaped(name, i, hex), Notify, None);
    EscapedReads(name, i, hex);
    EscapedIsClean(name, i, hex);
    NoNul(l.name);
    CStringWhole(ChunksMean(l.name));
    OneLine(l);
    hide FileDoc, Loads, CProfile, Escaped, Decoded, ChunksMean, CString, ChunksOk, StrictChunks, AsciiChunks;
    WrittenFilesRead("p", Allow, [l], libc);
    TableLacksName(libc, name[i := '?'], name);
  }

  lemma OneLine(l: Line)
    requires LineOk(l)
    ensures LinesOk([l]) && DecodesAll([l]) == [Decodes(l)] && ShowsAll([l]) == [Shows(l)]
  {
    hide LineOk, Decodes, Shows;
    assert [l][1..] == [];
  }

  lemma TableLacksName(libc: Libc, seen: string, name: string)
    requires libc.resolve(seen).None? && libc.resolve(name).Some?
    ensures !ReadersAgree(ProfileDoc(Allow, [RuleDoc(seen, Notify, Some(1))]),
                          ProfileDoc(Allow, [RuleDoc(name, Notify, None)]), libc)
  {
    var c, m := ProfileDoc(Allow, [RuleDoc(seen, Notify, Some(1))]), ProfileDoc(Allow, [RuleDoc(name, Notify, None)]);
    assert !Numbered(c.rules, libc, libc.resolve(name).value);
    TableLacks(c, libc, libc.resolve(name).value);
    LastRuleHit(m.rules, name, 0);
    assert !AnsweredAlike(c, m, libc, name);
  }
}
