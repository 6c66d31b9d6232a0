/** The handshake that travels with the notify descriptor: printed into a 512-byte buffer
    (sandbox.c), sent through a 256-byte one (ipc.c), trimmed (ipc.rs) and taken apart (main.rs).
    Text is ASCII. */
module Handshake {
  import opened Decimal
  import opened JsonSpec
  import opened Wrappers

  predicate NulFree(s: string) { '\0' !in s }

  predicate NulFreeAll(argv: seq<string>) { forall a | a in argv :: NulFree(a) }

  function Take(s: string, n: nat): string { if |s| <= n then s else s[..n] }

  function Min(a: nat, b: nat): nat { if a < b then a else b }

  // ---------- what is sent ----------

  function Prefix(pid: int): (s: string)
    requires Int32(pid)
    ensures |s| <= 20
  {
    PidText(pid);
    "PID:" + SignedText(pid) + "|CMD:"
  }

  lemma PidText(pid: int)
    requires Int32(pid)
    ensures SignedText(pid) != "" && |SignedText(pid)| <= 11
    ensures NulFree(SignedText(pid)) && '|' !in SignedText(pid)
  {
    var n := if pid < 0 then -pid else pid;
    TextDenotes(n);
    Pow10Ten();
    TextLength(n, 10);
  }

  /** The arguments with a space behind each but the last of all `argc`. */
  function Pieces(argv: seq<string>, argc: nat): string {
    if argv == [] then "" else
    var n := |argv| - 1;
    Pieces(argv[..n], argc) + argv[n] + (if n == argc - 1 then "" else " ")
  }

  /** The arguments joined by single spaces. */
  function Join(argv: seq<string>): string {
    if argv == [] then "" else if |argv| == 1 then argv[0] else argv[0] + " " + Join(argv[1..])
  }

  /** One argument more: a space in front of it, unless it is the first. */
  lemma {:induction false} JoinExactly(argv: seq<string>, a: string)
    ensures Join(argv + [a]) == if argv == [] then a else Join(argv) + [0x20 as char] + a
  {
    if argv == [] {
    } else {
      assert (argv + [a])[1..] == argv[1..] + [a];
      JoinExactly(argv[1..], a);
      if |argv| == 1 { assert argv[1..] == []; }
    }
  }

  lemma {:induction false} PiecesFront(argv: seq<string>, argc: nat)
    requires 0 < |argv| <= argc
    ensures Pieces(argv, argc) == argv[0] + (if argc == 1 then "" else " ") + Pieces(argv[1..], argc - 1)
  {
    var n := |argv| - 1;
    if n == 0 {
      assert argv[..0] == [] && argv[1..] == [];
    } else {
      PiecesFront(argv[..n], argc);
      assert argv[..n][1..] == argv[1..][..n - 1];
    }
  }

  lemma {:induction false} PiecesJoin(argv: seq<string>)
    ensures Pieces(argv, |argv|) == Join(argv)
  {
    if argv == [] {
    } else {
      PiecesFront(argv, |argv|);
      PiecesJoin(argv[1..]);
    }
  }

  lemma {:induction false} PiecesGrow(argv: seq<string>, i: nat)
    requires i <= |argv|
    ensures Pieces(argv[..i], |argv|) <= Pieces(argv, |argv|)
    ensures NulFreeAll(argv) ==> NulFree(Pieces(argv, |argv|))
    decreases |argv| - i
  {
    if i < |argv| {
      PiecesGrow(argv, i + 1);
      assert argv[..i + 1][..i] == argv[..i];
    } else {
      assert argv[..i] == argv;
      PiecesNulFree(argv, |argv|);
    }
  }

  lemma {:induction false} PiecesNulFree(argv: seq<string>, argc: nat)
    ensures NulFreeAll(argv) ==> NulFree(Pieces(argv, argc))
  {
    if argv == [] {
    } else {
      PiecesNulFree(argv[..|argv| - 1], argc);
      assert argv[|argv| - 1] in argv;
    }
  }

  lemma Pow10Ten()
    ensures Pow10(10) == 10_000_000_000
  {
    assert Pow10(5) == 100_000;
    assert Pow10(10) == 10 * (10 * (10 * (10 * (10 * Pow10(5)))));
  }

  lemma {:induction false} CStringOf(s: string, n: nat)
    requires n < |s| && s[n] == '\0' && NulFree(s[..n])
    ensures CString(s) == s[..n]
  {
    if n == 0 {
    } else {
      assert s[0] == s[..n][0];
      assert s[1..][..n - 1] == s[..n][1..];
      CStringOf(s[1..], n - 1);
    }
  }

  /** `snprintf(buf + at, size - at, "%s", text)`: as much of `text` as fits, a terminator, and the
      length it would have liked to print. */
  method Snprintf(buf: array<char>, at: nat, text: string) returns (n: nat)
    requires at < buf.Length
    modifies buf
    ensures n == |text|
    ensures var k := Min(|text|, buf.Length - at - 1);
      buf[..at] == old(buf[..at]) && buf[at..at + k] == text[..k] && buf[at + k] == '\0'
  {
    var k := Min(|text|, buf.Length - at - 1);
    for i := 0 to k
      invariant buf[..at] == old(buf[..at])
      invariant buf[at..at + i] == text[..i]
    {
      buf[at + i] := text[i];
      assert buf[at..at + i + 1] == buf[at..at + i] + [text[i]];
    }
    buf[at + k] := '\0';
    n := |text|;
  }

  /** Printing more text behind what already fills `n` bytes, or overflows the buffer. */
  lemma Printed(before: string, after: string, whole: string, text: string, k: nat, n: nat)
    requires n <= |whole| && |before| >= n && before[..n] == whole[..n]
    requires k <= |text| && |after| > n + k && after[..n] == before[..n] && after[n..n + k] == text[..k]
    requires |whole| == n
    ensures after[..n + k] == (whole + text)[..n + k]
  {
    assert after[..n + k] == after[..n] + after[n..n + k];
  }

  lemma PiecesStep(argv: seq<string>, i: nat)
    requires i < |argv|
    ensures Pieces(argv[..i + 1], |argv|) ==
      Pieces(argv[..i], |argv|) + (argv[i] + (if i == |argv| - 1 then "" else " "))
  {
    assert argv[..i + 1][..i] == argv[..i];
  }

  /** The printing loop of `child_entry`. The counter `n` may run past the buffer; the loop then
      stops, and the buffer holds the first 511 characters of the message. */
  method Print(pid: int, argv: seq<string>, handshake: array<char>)
    requires handshake.Length == 512 && Int32(pid) && NulFreeAll(argv)
    modifies handshake
    ensures CString(handshake[..]) == Take(Prefix(pid) + Join(argv), 511)
    ensures |CString(handshake[..])| < handshake.Length
  {
    hide Pieces, Join, CString, SignedText, Prefix, Take;
    ghost var whole, argc := Prefix(pid), |argv|;
    var n := Snprintf(handshake, 0, Prefix(pid));
    assert handshake[..n] == handshake[0..n] == whole;
    NoPieces(argc);
    var i := 0;
    while i < |argv| && n < handshake.Length - 1
      invariant 0 <= i <= |argv| && n == |whole|
      invariant whole == Prefix(pid) + Pieces(argv[..i], argc)
      invariant handshake[..Min(n, 511)] == whole[..Min(n, 511)] && handshake[Min(n, 511)] == '\0'
    {
      ghost var before := handshake[..];
      var text := argv[i] + (if i == |argv| - 1 then "" else " ");
      var m := Snprintf(handshake, n, text);
      Printed(before, handshake[..], whole, text, Min(m, 511 - n), n);
      PiecesStep(argv, i);
      n := n + m;
      whole := whole + text;
      i := i + 1;
    }
    Finished(pid, argv, i, whole, handshake[..]);
  }

  lemma NoPieces(argc: nat)
    ensures Pieces([], argc) == ""
  {
  }

  /** Why the loop may stop early: what it has not printed would not have fitted. */
  lemma Finished(pid: int, argv: seq<string>, i: nat, whole: string, buf: string)
    requires Int32(pid) && NulFreeAll(argv) && i <= |argv| && |buf| == 512
    requires whole == Prefix(pid) + Pieces(argv[..i], |argv|) && (i == |argv| || |whole| >= 511)
    requires var k := Min(|whole|, 511); buf[..k] == whole[..k] && buf[k] == '\0'
    ensures CString(buf) == Take(Prefix(pid) + Join(argv), 511)
  {
    hide Pieces, Join;
    PidText(pid);
    PiecesGrow(argv, i);
    PiecesJoin(argv);
    if i == |argv| { assert argv[..i] == argv; }
    var all, k := Prefix(pid) + Join(argv), Min(|whole|, 511);
    assert whole <= all;
    assert NulFree(whole[..k]);
    CStringOf(buf, k);
  }

  /** `sb_ipc_send_fd`: the text is cut to 255 bytes and sent with a terminator. */
  method Send(msg: array<char>) returns (datagram: string)
    requires |CString(msg[..])| < msg.Length
    ensures datagram == Take(CString(msg[..]), 255) + "\0"
  {
    hide CString;
    ghost var m := msg[..];
    ghost var s := CString(m);
    var dummy := new char[256];
    var mlen := |CString(msg[..])|;
    if mlen >= dummy.Length { mlen := dummy.Length - 1; }
    forall i | 0 <= i < mlen { dummy[i] := msg[i]; }
    dummy[mlen] := '\0';
    assert dummy[..mlen] == s[..mlen] == Take(s, 255);
    assert dummy[..mlen + 1] == dummy[..mlen] + ['\0'] && msg[..] == m;
    return dummy[..mlen + 1];
  }

  // ---------- what is received ----------

  /** `trim_end_matches('\0')` */
  function TrimNul(s: string): (r: string)
    ensures r <= s && (r != "" ==> r[|r| - 1] != '\0') && forall i :: |r| <= i < |s| ==> s[i] == '\0'
  {
    if s != "" && s[|s| - 1] == '\0' then TrimNul(s[..|s| - 1]) else s
  }

  /** `recv_fd`: at most 256 bytes arrive; trailing NULs go. */
  method Receive(datagram: string) returns (txt: string)
    ensures txt == TrimNul(Take(datagram, 256))
  {
    var buf := new char[256];
    var n := Min(|datagram|, buf.Length);
    forall i | 0 <= i < n { buf[i] := datagram[i]; }
    assert buf[..n] == Take(datagram, 256);
    txt := if n > 0 then TrimNul(buf[..n]) else "";
  }

  /** `str::find` */
  function IndexOf(s: string, c: char): Option<nat> {
    if s == "" then None
    else if s[0] == c then Some(0)
    else match IndexOf(s[1..], c) case Some(i) => Some(i + 1) case None => None
  }

  lemma {:induction false} IndexOfFirst(a: string, c: char, b: string)
    requires c !in a
    ensures IndexOf(a + [c] + b, c) == Some(|a|)
  {
    if a == "" {
    } else {
      assert (a + [c] + b)[1..] == a[1..] + [c] + b;
      IndexOfFirst(a[1..], c, b);
    }
  }

  /** `str::parse::<i32>` */
  function ParseI32(s: string): Option<int> {
    if s == "" then None else
    var digits := if s[0] == '-' || s[0] == '+' then s[1..] else s;
    if digits == "" || !AllDigits(digits) then None else
    var n: int := ValueOf(digits);
    var i := if s[0] == '-' then -n else n;
    if Int32(i) then Some(i) else None
  }

  /** What `parse` accepts: digits with a sign at most, that denote a 32-bit number. */
  lemma ParsesExactly(s: string, i: int)
    ensures ParseI32(s) == Some(i) <==>
      Int32(i) && exists d | d != "" && AllDigits(d) ::
        (s == d && i == ValueOf(d)) || (s == ['+'] + d && i == ValueOf(d)) || (s == ['-'] + d && i == 0 - ValueOf(d))
  {
    if ParseI32(s) == Some(i) {
      var d := if s[0] == '-' || s[0] == '+' then s[1..] else s;
      assert d != "" && AllDigits(d);
      assert s[0] == '-' || s[0] == '+' ==> s == [s[0]] + d;
    } else if Int32(i) {
      forall d | d != "" && AllDigits(d)
        ensures !(s == d && i == ValueOf(d)) && !(s == ['+'] + d && i == ValueOf(d))
        ensures !(s == ['-'] + d && i == 0 - ValueOf(d))
      {
        FirstDigit(d);
        assert (['+'] + d)[1..] == d && (['-'] + d)[1..] == d;
      }
    }
  }

  lemma ParsesPrinted(pid: int)
    requires Int32(pid)
    ensures ParseI32(SignedText(pid)) == Some(pid)
  {
    TextDenotes(if pid < 0 then -pid else pid);
    hide AllDigits, ValueOf, Decimal.Text;
    if pid < 0 {
      assert SignedText(pid)[1..] == Text(-pid);
    } else {
      FirstDigit(Text(pid));
    }
  }

  lemma FirstDigit(s: string)
    requires s != "" && AllDigits(s)
    ensures s[0] != '-' && s[0] != '+'
  {
    assert IsDigit(s[0]);
  }

  /** The pid and the command that the monitor records for a run. */
  datatype Peer = Peer(pid: Option<int>, cmd: Option<string>)

  function Understand(txt: string): Peer {
    if !("PID:" <= txt) then Peer(None, None) else
    match IndexOf(txt, '|')
    case None => Peer(None, None)
    case Some(k) =>
      if k < 4 || |txt| <= k then Peer(None, None) else
      Peer(ParseI32(txt[4..k]), if "|CMD:" <= txt[k..] then Some(txt[k + 5..]) else None)
  }

  lemma {:induction false} TrimOne(s: string)
    requires NulFree(s)
    ensures TrimNul(s + "\0") == s
  {
    assert (s + "\0")[..|s|] == s;
    assert s == "" || s[|s| - 1] in s;
  }

  /** The message as the monitor reads it is the printed one, cut once at 255 characters. */
  lemma Carried(m: string)
    requires NulFree(m)
    ensures TrimNul(Take(Take(Take(m, 511), 255) + "\0", 256)) == Take(m, 255)
  {
    assert NulFree(Take(m, 255));
    TrimOne(Take(m, 255));
  }

  lemma UnderstandsText(t: string, cmd: string)
    requires '|' !in t
    ensures Understand("PID:" + t + "|CMD:" + cmd) == Peer(ParseI32(t), Some(cmd))
  {
    hide ParseI32, IndexOf;
    var head := "PID:" + t;
    var txt := "PID:" + t + "|CMD:" + cmd;
    assert txt == head + ['|'] + ("CMD:" + cmd);
    IndexOfFirst(head, '|', "CMD:" + cmd);
    var k := |head|;
    assert txt[..4] == "PID:" && txt[4..k] == t;
    assert txt[k..] == "|CMD:" + cmd && txt[k + 5..] == cmd;
    assert txt[k..][..5] == "|CMD:";
  }

  /** The first `c` parts the text. */
  lemma {:induction false} IndexOfParts(s: string, c: char)
    ensures match IndexOf(s, c)
      case Some(k) => k < |s| && s[k] == c && c !in s[..k]
      case None => c !in s
  {
    if s == "" || s[0] == c {
    } else {
      IndexOfParts(s[1..], c);
      assert s == [s[0]] + s[1..];
      if IndexOf(s, c).Some? { assert s[..IndexOf(s, c).value] == [s[0]] + s[1..][..IndexOf(s, c).value - 1]; }
    }
  }

  /** A message with a bar behind its pid. */
  lemma PartsFound(txt: string, t: string, rest: string)
    requires txt == "PID:" + t + ("|" + rest) && '|' !in t
    ensures "PID:" <= txt && IndexOf(txt, '|') == Some(4 + |t|) && txt[4..4 + |t|] == t
    ensures txt[4 + |t|..] == "|" + rest
  {
    var head := "PID:" + t;
    assert txt == head + ['|'] + rest;
    IndexOfFirst(head, '|', rest);
    assert txt[..4] == "PID:";
  }

  /** And the other way round. */
  lemma PartsOf(txt: string)
    requires "PID:" <= txt && IndexOf(txt, '|').Some? && IndexOf(txt, '|').value >= 4
    ensures var k := IndexOf(txt, '|').value;
      k < |txt| && '|' !in txt[4..k] && txt == "PID:" + txt[4..k] + ("|" + txt[k + 1..]) &&
      ("|CMD:" <= txt[k..] ==> txt == "PID:" + txt[4..k] + ("|CMD:" + txt[k + 5..]))
  {
    IndexOfParts(txt, '|');
    var k := IndexOf(txt, '|').value;
    hide IndexOf;
    InFront(txt, "PID:", k);
    InFront(txt[k..], "|", |txt| - k);
    if "|CMD:" <= txt[k..] { InFront(txt[k..], "|CMD:", |txt| - k); }
  }

  lemma InFront(s: string, p: string, k: nat)
    requires p <= s && |p| <= k <= |s|
    ensures s == p + s[|p|..k] + s[k..] && (k == |s| ==> s == p + s[|p|..])
    ensures forall c | c in s[|p|..k] :: c in s[..k]
    ensures forall i: nat | i <= |s| - |p| :: s[|p|..][i..] == s[|p| + i..]
  {
    assert s[|p|..k] == s[..k][|p|..];
  }

  /** Exactly what is made of a message, well-formed or not: a pid if `PID:` stands in front, a bar behind,
      and a number between them; a command if that bar begins `|CMD:`. */
  lemma UnderstandsExactly(txt: string, pid: int, cmd: string)
    ensures Understand(txt).pid == Some(pid) <==>
      exists t, rest | txt == "PID:" + t + ("|" + rest) :: '|' !in t && ParseI32(t) == Some(pid)
    ensures Understand(txt).cmd == Some(cmd) <==> exists t | txt == "PID:" + t + ("|CMD:" + cmd) :: '|' !in t
  {
    hide ParseI32, IndexOf;
    forall t, rest | txt == "PID:" + t + ("|" + rest) && '|' !in t && ParseI32(t) == Some(pid)
      ensures Understand(txt).pid == Some(pid)
    {
      PartsFound(txt, t, rest);
    }
    forall t | txt == "PID:" + t + ("|CMD:" + cmd) && '|' !in t ensures Understand(txt).cmd == Some(cmd) {
      assert "|CMD:" + cmd == "|" + ("CMD:" + cmd);
      PartsFound(txt, t, "CMD:" + cmd);
      assert ("|CMD:" + cmd)[5..] == cmd;
    }
    if "PID:" <= txt && IndexOf(txt, '|').Some? && IndexOf(txt, '|').value >= 4 { PartsOf(txt); }
  }

  /** The monitor recovers every pid exactly, and of the space-joined command as much as the 255
      bytes leave room for, whatever characters the arguments contain. */
  lemma Recovers(pid: int, argv: seq<string>)
    requires Int32(pid) && NulFreeAll(argv)
    ensures var sent := Take(Take(Prefix(pid) + Join(argv), 511), 255) + "\0";
      Understand(TrimNul(Take(sent, 256))) == Peer(Some(pid), Some(Take(Join(argv), 255 - |Prefix(pid)|)))
  {
    PidText(pid);
    PiecesGrow(argv, 0);
    PiecesJoin(argv);
    var m := Prefix(pid) + Join(argv);
    Carried(m);
    var cmd := Take(Join(argv), 255 - |Prefix(pid)|);
    assert Take(m, 255) == Prefix(pid) + cmd;
    ParsesPrinted(pid);
    UnderstandsText(SignedText(pid), cmd);
  }

  /** The whole way, through the code of both sides. */
  method Exchange(pid: int, argv: seq<string>) returns (peer: Peer)
    requires Int32(pid) && NulFreeAll(argv)
    ensures peer == Peer(Some(pid), Some(Take(Join(argv), 255 - |Prefix(pid)|)))
  {
    hide Understand, TrimNul, CString, Prefix, Join, Take;
    Recovers(pid, argv);
    var handshake := new char[512];
    Print(pid, argv, handshake);
    var datagram := Send(handshake);
    var txt := Receive(datagram);
    peer := Understand(txt);
  }
}
