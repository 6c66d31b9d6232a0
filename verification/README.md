# SentinelBox, verified

SentinelBox launches a program in a sandbox. A C launcher reads a security profile, sets up
namespaces and compiles the profile into a seccomp filter; a Rust monitor answers the system calls the
filter passes on, samples resource use and writes an audit database; a Node bridge publishes that
database. This project models the parts where something can go subtly wrong and proves what they are
meant to guarantee.

| file | what it models |
|---|---|
| `Wrappers.dfy` | optional values |
| `Decimal.dfy` | decimal digits, as printed by C and read by C and Rust |
| `JsonSpec.dfy` | what the JSON reader computes, as functions of the text and a cursor |
| `JsonHeap.dfy` | the C heap, trees as exact sets of blocks, `sb_json_free` |
| `JsonParser.dfy` | the recursive-descent reader itself, over a byte buffer and the heap |
| `JsonRoundTrip.dfy` | the grammar of RFC 8259, and that reading undoes writing |
| `JsonAccepts.dfy` | which texts the reader accepts, by a grammar of its own, and that it rejects the rest |
| `Profile.dfy` | the rule table of a profile, loaded and looked up |
| `Filter.dfy` | the two-pass construction of the kernel filter |
| `Pipeline.dfy` | filter and monitor together against the meaning of the profile |
| `Serde.dfy` | what serde makes of the same file, and when both readers see the same in it |
| `ProfileFiles.dfy` | profile files written out: every profile has one, and an escape makes the readers differ |
| `Handshake.dfy` | the message that travels with the notify descriptor, from `snprintf` to the parsed record |
| `Launch.dfy` | parent, child, monitor and kernel as a labelled transition system: safety and termination |
| `LaunchProgress.dfy` | exactly when a launch reaches its target, and exactly when it comes to its end |
| `EventLoop.dfy` | the monitor's notification loop |
| `EndToEnd.dfy` | from the bytes of a profile to the monitor's replies, through the code of both sides |
| `Audit.dfy` | the audit log under every schedule of its two writers |
| `Telemetry.dfy` | the sampling schedule and the CPU accounts |
| `Template.dfy` | templates: sequential replacement against simultaneous substitution |
| `Feedback.dfy` | the monitor's messages, and exactly when its replacements are a substitution |
| `Explorer.dfy` | the web explorer's copy of the monitor's decisions |
| `Bridge.dfy` | cursor-based publication to clients |

`dafny verify dfyconfig.toml` checks all of it.

## What the proofs found

These are properties of the code as it is; the member that states each is named.

- A rule that sends a call to the monitor loses its meaning when the monitor does not know the call's
  number by the name in the profile: `syscall_name` knows twenty x86-64 numbers, and every other call gets
  the answer for `syscall_unknown`. `CallsExactly` says for every number and any two readings of a file when
  the meaning is kept, `ValidCallsExactly` for a profile that both sides read alike. All three shipped
  profiles have a KILL rule for `pivot_root` under an ALLOW default, and `UnnamedKillRuns` shows that such a
  call is let through.
- profile.c takes the first rule of a number among the first 256, policy.rs the last rule of a name,
  although policy.rs says that both sides mean the same by a profile. `ReadersAgreeExactly` says when they
  agree; `ReadersDiffer` has a duplicate, two names of one number, and a 257th rule on which they do not.
- The two sides do not even see the same in a file: json_lite.c reads a question mark for every unicode
  escape, serde reads the character. `PlainFilesReadAlike` says that without escapes they see the same, and
  `SeeAlikeExactly`, for files whose only escapes are in rule names, that they do if and only if each escape
  is one of `?`. `EscapeDiffers` has, for every known call and every character of its name, a file on which
  one side has a rule for the call and the other has none.
- A profile that sends no call to the monitor, such as one of ALLOW and ERRNO rules alone, never starts its
  program: its filter has no listener, the install fails behind the load (`Install`), the child exits, the
  monitor waits for the handover and the parent for the monitor. `AllowingProfileLaunches` and `ProfileLaunchesExactly` have that in
  their condition, and `NoListenerNoLaunch` says that no run of such a launch executes anything.
- A child that ends before it has handed over the notify descriptor, or that could not be cloned, leaves
  the monitor waiting in `recvmsg`, and with it the parent, which keeps its end of the socket open
  (`HandoverLost`). The comment at core/src/main.c:196 expects the monitor to notice. `FinishesExactly` says
  which launches do come to an end, over all failures and kills. `AlwaysFinishesExactly` and
  `ProfileFinishesExactly` say for which filters and profiles every launch without failures does: those with a
  listener, `sendmsg` allowed and, for a verbose child, `write` not notified.
- NOTIFY on `sendmsg` locks the launch up, as the note in profiles/strict.json:7 warns
  (`NotifyingProfileLocks`). `LaunchesExactly` gives the whole condition for reaching the target: the
  listener, and `write`, `close` and `execve` count too.
- json_lite.c accepts more than RFC 8259: any escaped character, a unicode escape of any four characters,
  leading zeros, and whatever `strtod` takes behind a digit or a minus sign. `ValueSpells` says by a grammar of
  its own what an accepted text looks like and which value it stands for; everything else is rejected.
- A client of the bridge may receive a row twice: exactly the rows that were inserted but not yet polled
  when it joined (`ClientSeesAll`, `ToldTwice`).
- The monitor's replacements are one simultaneous substitution on every template whose braces do not nest,
  if and only if no opening brace of the profile name can start the placeholder of an argument
  (`SubstitutionExactly`). Where braces nest they need not be (`NestedDiffers`).

Where a comment and the code disagree, the model follows the code: `syscall_name` returns
`syscall_unknown`, not `syscall_<nr>`; NOTIFY does reach the monitor's policy; the handshake is
`PID:<pid>|CMD:<argv>`, not `NOTIFY_FD`; the telemetry thread looks at the stop flag before it sleeps, so
one more sample may follow the flag; the handshake carries 255 bytes, not 256.

## Model

| member | source | states |
|---|---|---|
| JsonParser.TokensShrink | core/src/json_lite.c:61-67 | the number of pass-one tokens ahead never grows as the start moves forward, even to a place where pass one did not stop, and drops by at most one per byte |
| JsonParser.TokensMonotone | core/src/json_lite.c:61-67 | the same for any distance, such as the fixed four-byte skip of a unicode escape |
| JsonParser.DecodeFits | core/src/json_lite.c:68-95 | what pass two writes never exceeds what pass one counted, also when a unicode escape skips into a later escape and the passes no longer agree on where tokens start |
| JsonParser.Parser.Measure | core/src/json_lite.c:58-67 | pass one finds the closing quote and the token count that sizes the buffer |
| JsonParser.Parser.Fill | core/src/json_lite.c:70-95 | pass two writes the decoded text and its terminator inside the buffer of `worst + 1` bytes, and reads nothing at or behind `end` |
| JsonParser.Parser.SkipBlanks | core/src/json_lite.c:32-38 | stops at the first byte that is no blank of RFC 8259, or at the end |
| JsonParser.Parser.ParseString | core/src/json_lite.c:55-97 | returns a fresh buffer with the decoded text exactly when the text holds a terminated string and the allocation succeeds; otherwise the heap is as before |
| JsonParser.Parser.NewNode | core/src/json_lite.c:47-52 | a fresh zeroed node, or NULL and an unchanged heap |
| JsonParser.NumberStopsAtNul | core/src/json_lite.c:161-180 | `strtod`, in all its forms (decimal, hexadecimal, infinity, not-a-number), and `strtoll`, neither of which is told the length, stop inside the text because of the terminator, and read the same number as they would from the text alone |
| JsonParser.Parser.ParseNumber | core/src/json_lite.c:161-180 | everything `strtod` takes is taken: an integer node, clamped to 64 bits, where both conversions stop at the same place, else a number node; a leak-free NULL on failure |
| JsonParser.AppendCells | core/src/json_lite.c:126-128 | writing `last->next` and moving `last` turns the blocks of a list into the blocks of the list with the new child at its end |
| JsonParser.Link | core/src/json_lite.c:126-128 | the exact heap behind the pointer writes that hang a child on a list |
| JsonParser.AppendChild | core/src/json_lite.c:126-128 | linking a child turns the exact heap of a list, of either kind, into that of the list with the child at its end |
| JsonParser.AppendMember | core/src/json_lite.c:122-128 | linking a key node appends its member to the object, block for block |
| JsonParser.AppendElem | core/src/json_lite.c:149-151 | linking a value appends it to the array, block for block |
| JsonParser.DropPair | core/src/json_lite.c:123 | the clean-up of a pair gives back exactly its blocks |
| JsonParser.Parser.ParsePair | core/src/json_lite.c:111-125 | key, colon and value become one key node, or on any failure everything allocated is given back |
| JsonParser.Parser.ParseMembers | core/src/json_lite.c:110-135 | the member loop reads what the grammar function reads, members in order, and on every error path restores the heap of before the object |
| JsonParser.Parser.ParseObject | core/src/json_lite.c:103-135 | objects are accepted, built and released exactly as specified, under every pattern of allocation failures |
| JsonParser.Parser.ParseElements | core/src/json_lite.c:144-158 | the element loop, likewise |
| JsonParser.Parser.ParseArray | core/src/json_lite.c:138-158 | arrays, likewise |
| JsonParser.Parser.ParseStringNode | core/src/json_lite.c:189-196 | a string value owns its buffer; a refused node gives the buffer back |
| JsonParser.Parser.ParseLiteral | core/src/json_lite.c:197-211 | a literal becomes one node and the cursor stands behind it |
| JsonParser.Parser.ParseValue | core/src/json_lite.c:183-215 | for every input: a tree comes back exactly when the text is accepted and no allocation was refused, it represents the value read, the live blocks grow by exactly its blocks, the cursor does not go back and stays within the text; otherwise NULL and an unchanged heap |
| JsonParser.Parse | core/src/json_lite.c:221-229 | the same for the public entry point on any NUL-terminated buffer |
| JsonParser.ParseAndRelease | core/src/profile.c:97-150 | parsing and then freeing leaves the heap as it was, whatever the input and whichever allocations fail |
| JsonHeap.Heap.FreeTree | core/src/json_lite.c:232-253 | `sb_json_free` frees every block of the tree once and no other; each freed block is live |
| JsonHeap.Heap.FreeList | core/src/json_lite.c:235-244 | the sibling loop reads `next` before the node is gone and frees exactly the list |
| JsonHeap.PartOfList | core/src/json_lite.c:232-253 | node `i` of a separated list keeps its own blocks, disjoint from those before it |
| JsonHeap.RelinkLast | core/src/json_lite.c:126-128 | one write of `last->next` is all that distinguishes a closed list from one that goes on |
| JsonParser.Get | core/src/json_lite.c:256-262 | returns the value of the first member whose name equals the key as a C string, NULL when there is none or the node is no object |
| JsonParser.ElementCells | core/src/json_lite.c:144-158 | element `i` of an array in memory: its own blocks, its value, and a `next` that leads to element `i + 1` |
| JsonSpec.Value | core/src/json_lite.c:100-215 | every accepted value consumes at least one byte and ends within the text; mutual recursion terminates on the bytes left |
| JsonSpec.String | core/src/json_lite.c:55-97 | every accepted string consumes its quotes and ends within the text |
| JsonSpec.CString | core/src/json_lite.c:259 | what `strcmp` sees of a decoded string: the part in front of the first NUL |
| JsonSpec.FindsFirst | core/src/json_lite.c:256-262 | the member found is the first with that name as a C string, and none is found only if there is none |
| JsonRoundTrip.ChunksRead | core/src/json_lite.c:55-97 | both passes agree on every well-formed string: raw characters, short escapes and unicode escapes come out as they should |
| JsonRoundTrip.StringReads | core/src/json_lite.c:55-97 | every string of the grammar is read to the text it stands for |
| JsonRoundTrip.ShortEscapesRead | core/src/json_lite.c:76-84 | each of the eight short escapes is read to its character code of RFC 8259, section 7 |
| JsonRoundTrip.NumberReads | core/src/json_lite.c:161-180 | every number of the grammar is read whole, as a 64-bit integer if it has neither fraction nor exponent |
| JsonRoundTrip.ValueReads | core/src/json_lite.c:183-215 | every value of the grammar, with any layout, is read to what it stands for and the cursor stops right behind it |
| JsonRoundTrip.ItemsRead | core/src/json_lite.c:138-158 | array elements keep their order, whatever blanks surround them |
| JsonRoundTrip.EntriesRead | core/src/json_lite.c:103-135 | object members keep their names and order, whatever blanks surround them |
| JsonRoundTrip.ReadsDocument | core/src/json_lite.c:221-229 | every JSON text of RFC 8259 (sections 2 to 7), with leading blanks and followed by anything that does not run on from a number, is read to the value it stands for, unicode escapes standing for `?` |
| JsonRoundTrip.PrintMeans | core/src/json_lite.c:221-229 | every value with 64-bit integers has a text of the grammar that stands for it |
| JsonRoundTrip.RoundTrip | core/src/json_lite.c:221-229 | reading undoes printing, for every tree of objects, arrays, strings, 64-bit integers, booleans and null |
| JsonAccepts.StringExactly | core/src/json_lite.c:55-97 | exactly which texts are read as a string, and to what: any character may be escaped, and a unicode escape drops the four characters behind it whatever they are |
| JsonAccepts.NumberSpells | core/src/json_lite.c:161-180 | what is read as a number is a decimal or hexadecimal number, an infinity or a not-a-number, and an integer exactly if it is digits with at most a minus sign |
| JsonAccepts.ValueSpells | core/src/json_lite.c:100-215 | every text that is accepted, whatever its nesting, stands for the value it is read to: brackets, commas, colons and blanks are where the grammar wants them, so malformed text is rejected |
| Decimal.TextDenotes | core/src/sandbox.c:115 | printed digits are digits and denote the number printed, without a leading zero |
| Decimal.DigitsDenote | core/src/sandbox.c:115 | the ten digits, and what one digit more does to the number, by the code of the character |
| Profile.ReadRule | core/src/profile.c:59-83 | the rule an entry of the tree stands for, read through pointers: none if a name, an action, a known call or a known action is missing |
| Profile.Table.LoadRules | core/src/profile.c:52-84 | walking the sibling nodes of the list, the table ends up with the first 256 valid rules in order, skipping malformed ones; a value that is no array leaves it alone |
| Profile.Table.Find | core/src/profile.c:161-171 | the first rule for the number decides; without one the default does, with EPERM |
| Profile.Table.Load | core/src/profile.c:104-116 | name (cut to 63 bytes), default action and rules of the profile; a missing, mistyped or unknown default action counts as ERRNO |
| Profile.LookupHit | core/src/profile.c:161-171 | the lookup gives the action and errno of the first rule with that number |
| Profile.LookupMiss | core/src/profile.c:169-170 | the lookup gives the default with EPERM when no rule has that number |
| Profile.ActionsExactly | core/src/profile.c:25-32 | the four texts, compared as C strings, are the actions, and there are no others |
| Profile.RuleOfExactly | core/src/profile.c:59-83 | the rule of an entry in terms of its members: none without a name, an action, a known call or one of the four texts; the errno is the 32-bit number congruent to the integer, to the truncated number, or 1 |
| Profile.AllRulesExactly | core/src/profile.c:52-84 | the rules of a list are the rules of its entries, each behind those in front of it, malformed entries skipped |
| Profile.DefaultExactly | core/src/profile.c:110-113 | the default is the action whose text is given, and ERRNO when it is missing, mistyped or none of the four texts |
| Profile.ActionText | core/src/profile.c:25-32 | each action has a text that `parse_action` reads back |
| Profile.ToInt32 | core/src/profile.c:80 | the errno becomes the one 32-bit number congruent to it, itself when it fits |
| Filter.VisitsEachRuleOnce | core/src/seccomp.c:62-77 | the two passes visit every rule exactly once, all allowing rules first |
| Filter.Extend | core/src/seccomp.c:68-69 | adding a rule for a new number keeps what the filter decides for the others, also when the rule is turned down because it repeats the default |
| Filter.Compile | core/src/seccomp.c:47-77 | every rule is handed over once, in pass order; with distinct numbers the filter decides every number as the translated lookup in the profile does, default errno included |
| Filter.BuiltDecides | core/src/seccomp.c:51-77 | a filter that honours all visited rules decides every number, listed or not, as the profile asks |
| Filter.Install | core/src/seccomp.c:79-103 | the install succeeds exactly when the filter loads and has a listener; for distinct numbers, exactly when it loads and the default or a rule for a call the architecture has is NOTIFY or KILL |
| Filter.ListenerExactly | core/src/seccomp.c:88-96 | a filter that decides as the profile asks has a listener if and only if the profile sends some call to the monitor |
| Filter.NotifiedByRule | core/src/seccomp.c:36-44 | a call notified against the default has a NOTIFY or KILL rule |
| Pipeline.Policy.constructor | monitor/src/policy.rs:93-97 | the map answers every name by its last rule, or by the default with EPERM |
| Pipeline.SeenIsLoaded | core/src/profile.c:52-84 | the rules loaded from any JSON list are the rules seen in it whose names resolve, in order |
| Pipeline.TableMeansProfile | core/src/profile.c:52-84 | that table, before its cap, answers every number with the first rule whose name resolves to it, for any 32-bit errno |
| Pipeline.TableDistinct | core/src/profile.c:52-84 | distinct resolved names give a table without repeated numbers |
| Pipeline.ValidTable | core/src/profile.c:52-84 | the capped table of a valid profile has no number twice and answers like the profile |
| Pipeline.ByNameByNumber | monitor/src/policy.rs:121-127 | under distinct rules looking up by number in C and by name in Rust give the same action and errno |
| Pipeline.CallsExactly | monitor/src/main.rs:137-198 | for every number, and whatever the two sides have read: filter and monitor together give what the monitor's profile means by the call if and only if the answer of the C table and the answer under the monitor's name amount to that, the errno cut to 16 bits and 4095 |
| Pipeline.ValidCallsExactly | monitor/src/seccomp.rs:125-150 | for a valid profile that both sides read alike, on every number, named, unnamed or named differently: the call comes to what its rule means if and only if the filter settles it or the answer under the monitor's name agrees |
| Pipeline.NamesAsResolved | monitor/src/seccomp.rs:125-150 | each of the twenty numbers gets the name that resolves to it on x86-64, and every other number gets `syscall_unknown` |
| Pipeline.AnswersExactly | monitor/src/main.rs:163-194 | the three fields of the answer for each action |
| Pipeline.NamedCallsRefine | monitor/src/main.rs:137-198 | a call that the monitor names as the profile does comes to exactly what its rule means (run, -errno, -EPERM, or -EPERM and SIGKILL), and an audit row is attempted if and only if that rule is NOTIFY or KILL |
| Pipeline.TwentyCallsRefine | monitor/src/main.rs:137-198 | so in a valid profile that uses those names each of the twenty calls, by number, comes to exactly what its rule means |
| Pipeline.ErrnoKept | core/src/seccomp.c:36-44 | an errno from 0 to 4095 survives the filter, a larger one becomes 4095, and only the low 16 bits count |
| Pipeline.FallbackIsDefault | monitor/src/policy.rs:121-127 | the answer for the unknown name is the default's with EPERM, unless a rule bears that name |
| Pipeline.UnnamedKillRuns | profiles/strict.json:20 | a KILL rule for pivot_root under an ALLOW default lets the call run |
| Pipeline.TableAnswers | core/src/profile.c:52-84 | for each number the table answers with the first rule of it, or with the default if 256 known names stand before that rule |
| Pipeline.ReadersAgreeExactly | monitor/src/policy.rs:93-97 | the table of what profile.c has seen, by number, and the map of what policy.rs has seen, by name, agree for every name of every number if and only if, number by number, what the table holds for its first rule is what the last rule of each of its names says, and the default where a name or a number is unlisted |
| Pipeline.ReadersDiffer | monitor/src/policy.rs:93-97 | on one profile with a duplicate rule, one with two names of one number, and one with a 257th rule the two do not agree |
| Serde.StringsReadAlike | core/src/json_lite.c:85-87 | a string that serde reads comes out of json_lite.c the same if and only if every unicode escape in it is one for `?` |
| Serde.CodeExactly | monitor/src/policy.rs:88-91 | four hexadecimal digits of either case are the number they denote |
| Serde.Utf8Exactly | monitor/src/policy.rs:88-91 | a decoded character is well-formed UTF-8 in its shortest form and holds the bits of the character |
| Serde.SurrogatesExactly | monitor/src/policy.rs:88-91 | a pair of surrogates is decoded to the character it stands for |
| Serde.RuleFound | monitor/src/policy.rs:26-33 | without other escapes, a rule that serde reads is seen by profile.c with the same name, action and errno, the default errno included |
| Serde.PlainFilesReadAlike | monitor/src/policy.rs:52-66 | in a file that the monitor loads and that has no other escapes, both sides see the same default and, rule by rule, the same names, actions and errno values |
| ProfileFiles.WrittenFilesRead | monitor/src/policy.rs:86-97 | a written profile file is loaded by the monitor with every rule name decoded, and profile.c sees in it the same rules with a question mark for every unicode escape |
| ProfileFiles.SeeAlikeExactly | core/src/profile.c:52-84 | of a written file both sides see the same if and only if no rule name has a unicode escape other than that of `?` |
| ProfileFiles.EveryProfileHasAFile | monitor/src/policy.rs:86-97 | every profile with ASCII names and 32-bit errno values has a file, with the `name` that serde demands, which the monitor loads as that profile and in which profile.c sees the same |
| ProfileFiles.EscapeDiffers | core/src/json_lite.c:85-87 | for every name and every character of it: a file with that one character escaped, on which the monitor has a rule for the call and the table of profile.c has none, so that they disagree |
| EndToEnd.LoadTable | core/src/profile.c:87-154 | any JSON text, in any layout and whatever it holds, is loaded into the default and the first 256 resolved rules that stand in it, exactly when no allocation is refused; nothing is left on the heap |
| EndToEnd.LoadBoth | monitor/src/policy.rs:86-118 | of a file that the monitor loads, the C table of what profile.c sees and the Rust map of what serde reads answer alike for every name of every number if and only if the two readings are consistent; without escapes the readings are the same |
| EndToEnd.Deploy | core/src/seccomp.c:47-104 | from the bytes of the file to filter and policy, for every table without repeated numbers: the filter is installed if and only if it loads and the profile sends some call to the monitor; every number comes to what the file means exactly when the answers of both sides amount to that, and for a valid profile without escapes exactly when the answer under the monitor's name agrees, which for calls named alike it does |
| EndToEnd.Supervise | monitor/src/main.rs:110-199 | from the bytes of the file to the replies of the event loop: every notification the filter sends is answered under its own id, audited, and comes to what the file means under exactly these conditions |
| Handshake.Snprintf | core/src/sandbox.c:115-119 | as much of the text as fits, a terminator, and the full length as result |
| Handshake.Print | core/src/sandbox.c:114-119 | whatever the arguments, and although the counter may run past the buffer, the buffer ends up with the first 511 characters of the whole message |
| Handshake.Send | core/src/ipc.c:37-44 | the datagram is the message cut to 255 bytes, and a terminator |
| Handshake.Receive | monitor/src/ipc.rs:37-43 | at most 256 bytes arrive and trailing NULs are trimmed |
| Handshake.ParsesPrinted | monitor/src/main.rs:79 | every 32-bit pid that C prints is parsed back |
| Handshake.ParsesExactly | monitor/src/main.rs:79 | exactly which texts are parsed as a pid: digits with at most a sign, that denote a 32-bit number |
| Handshake.PiecesJoin | core/src/sandbox.c:116-119 | the piecewise printing amounts to the arguments joined by single spaces |
| Handshake.JoinExactly | core/src/sandbox.c:116-119 | one argument more stands behind one space, except the first |
| Handshake.UnderstandsText | monitor/src/main.rs:74-84 | splitting at the first bar recovers pid text and command, even when the command contains bars |
| Handshake.UnderstandsExactly | monitor/src/main.rs:74-84 | exactly what is made of any message, malformed or not: when there is a pid, when a command, and which |
| Handshake.Recovers | monitor/src/main.rs:74-84 | through both truncations and the trim the monitor recovers the pid exactly and the joined command cut to 255 bytes minus the prefix |
| Handshake.Exchange | core/src/sandbox.c:113-123 | the same, through the code of both sides, for every pid and every list of NUL-free arguments |
| Launch.LaunchSafety | core/src/sandbox.c:60-151 | over all interleavings, failures and kills: the target is executed only after setgroups, uid_map, gid_map, the cgroup attempt, the pid on the pipe, ids, overlay, no_new_privs, capabilities and filter, in that order; a failed map write never lets the child past the pipe; and the parent waits for no living child that it has not told its pid |
| Launch.RunSound | core/src/sandbox.c:154-227 | the invariant behind it holds in every reachable state |
| Launch.FailedStepStops | core/src/sandbox.c:60-108 | if a step that must not fail does, of the parent from the socket pair to the pid on the pipe or of the child from the pid to the filter, the target is never executed, whatever else happens |
| Launch.FailedMonitorStops | monitor/src/main.rs:58-72 | a monitor that could not be started, could not load its profile or take the descriptor, or was killed serves nobody for the rest of the run |
| Launch.RefusedCloseKeepsOpen | core/src/sandbox.c:126-127 | if the filter or the monitor refuses the close, the child keeps its copy of the listener |
| Launch.EverythingMayFail | core/src/sandbox.c:154-227 | every step that can be taken can fail, wait4 can give up on a living child, and every process can be killed exactly as long as it lives |
| Launch.ListensExactly | core/src/seccomp.c:88-96 | a filter has a listener exactly if it notifies some call |
| Launch.Advances | core/src/main.c:162-202 | every act of any process moves the system forward |
| Launch.RunsEnd | core/src/main.c:162-202 | no run has more than 53 acts |
| LaunchProgress.RunInStep | core/src/sandbox.c:103-137 | where the processes stand relative to each other in every run without failures |
| LaunchProgress.NeverStuck | core/src/sandbox.c:103-137 | when the filter lets the bootstrap calls by, some process can always go on until the target runs |
| LaunchProgress.RunsOn | core/src/main.c:162-202 | every run, whatever failed in it, goes on to a state in which nobody can go on |
| LaunchProgress.NoListenerNoLaunch | core/src/seccomp.c:88-96 | under a filter that notifies no call no run ever executes the target or hands over a descriptor, whatever happens in it |
| LaunchProgress.LaunchesExactly | core/src/sandbox.c:103-137 | no successful run gets stuck before the target if and only if the filter has a listener and filter and monitor let the calls between filter and exec return |
| LaunchProgress.SendmsgDeadlock | monitor/src/main.rs:70-72 | with NOTIFY on sendmsg a state is reached, without failures, in which parent, child and monitor all wait for each other: the child parked at sendmsg, or at its log message before that if it is verbose and write is notified too, and the monitor in recvmsg |
| LaunchProgress.ProfileVerdict | core/src/seccomp.c:47-103 | the verdicts of the launch are the translated answers of the profile's table, and it has a listener exactly when the profile sends some call to the monitor |
| LaunchProgress.AllowingProfileLaunches | profiles/strict.json:7 | a profile that allows write, sendmsg, close and execve always launches if and only if it sends some call to the monitor; if it sends none, no run executes anything |
| LaunchProgress.ProfileLaunchesExactly | core/src/sandbox.c:103-137 | the whole condition for launching, read off the table and the policy of any profile |
| LaunchProgress.NotifyingProfileLocks | profiles/strict.json:7 | every profile with NOTIFY or KILL on sendmsg, by rule or by default, locks up its own launch |
| LaunchProgress.HandoverLost | core/src/main.c:196-202 | once the child is gone, or could not be started, without the descriptor having been sent, neither monitor nor parent ever finishes unless the monitor fails or is killed |
| LaunchProgress.ChildMayBeLost | core/src/sandbox.c:177-201 | that state is reached when the child dies right behind clone |
| LaunchProgress.NobodyAtThePipe | core/src/sandbox.c:60-70 | no child is left waiting at the pipe, whatever failed and whoever was killed |
| LaunchProgress.FinishesExactly | core/src/main.c:193-202 | over all interleavings, failures and kills but that of the parent: when nobody can go on, the parent has finished if and only if the monitor is not left waiting for a handover and the child does not wait for an answer nobody gives; when wait4 gave up on the child, only the monitor counts |
| LaunchProgress.AlwaysFinishesExactly | core/src/main.c:193-202 | every launch without failures comes to its end if and only if the filter has a listener, allows sendmsg and, for a verbose child, does not notify write; otherwise none does |
| LaunchProgress.ProfileFinishesExactly | core/src/sandbox.c:103-137 | the same, read off the profile: it sends some call to the monitor, allows sendmsg and, for a verbose child, neither notifies nor kills on write |
| EventLoop.Loop | monitor/src/main.rs:110-199 | for every sequence of poll and receive outcomes: each notification taken is audited, then answered once with its own id and the policy's answer, and killed only after the EPERM reply if the action is KILL; nothing else happens, and exactly the notifications delivered before the loop ends are taken |
| EventLoop.DeliveredExactly | monitor/src/main.rs:110-134 | interrupts and timeouts end nothing: delivered are all notifications in front of the first round in which poll fails, wakes the loop without input, or the notification is gone |
| EventLoop.BlockKeeps | monitor/src/main.rs:128-198 | handling one more notification keeps that discipline |
| EventLoop.OneInFlight | monitor/src/main.rs:110-199 | at most one notification is in flight at any time and none when the loop ends |
| Audit.AuditDb.RecordExecutionStart | monitor/src/db.rs:66-72 | one row more behind all others; the id returned is one no row has had and nothing refers to, every earlier row stays and the log stays in order |
| Audit.AuditDb.RecordExecutionEnd | monitor/src/db.rs:74-80 | exactly the rows of that execution are ended, and nothing else changes |
| Audit.AuditDb.RecordSyscallEvent | monitor/src/db.rs:82-101 | one event more behind all earlier ones, and nothing else changes; for an execution that exists the log stays in order and without dangling references |
| Audit.AuditDb.RecordResourceSample | monitor/src/db.rs:103-116 | one sample more behind all earlier ones; for an execution that exists the log stays in order and without dangling references, the sample is now the last of that execution, and the last samples of all others stay |
| Audit.AuditDb.GetLastSample | monitor/src/db.rs:118-131 | the sample of that execution with the greatest id, none if it has no sample |
| Audit.Perform | monitor/src/main.rs:86-218 | every step of the two threads is a call of the code, and leaves the database that the step says |
| Audit.RunKeeps | monitor/src/main.rs:86-218 | the invariant of the log under every schedule |
| Audit.AuditSafety | monitor/src/main.rs:201-218 | under every schedule of event loop and telemetry thread, and of other monitors on the same file: every event and sample belongs to an existing execution, all samples come before the single end update, at most the OOM row follows it, the rows of the execution are exactly what this monitor wrote, in order, and the last sample found is the last one written |
| Audit.OneSampleMore | monitor/src/telemetry.rs:62-66 | once the event loop has been left at most one sample follows, under every schedule |
| Audit.EndsAfterLeave | monitor/src/main.rs:201-218 | and from there the run can always be brought to its end |
| Audit.LastSampleUnique | monitor/src/db.rs:118-131 | there is only one answer to the question for the last sample |
| Telemetry.Run | monitor/src/telemetry.rs:25-138 | for any two readings of the clock before the loop and any pattern of work, delays and failed readings: one sample per round on the schedule of the first reading, the first interval from the second, each with the percentage its own and the latest earlier reading give; the cgroup percentages account for every rise of the counter; fallback percentages lie between 0 and 100 while the system counters do not go back |
| Telemetry.Measure | monitor/src/telemetry.rs:99-128 | one round: the cgroup reading if there is one, else the system's, and which baselines move |
| Telemetry.SysPct | monitor/src/telemetry.rs:117-128 | the fallback percentage is the busy share of active plus idle time elapsed, 0 if none elapsed, within 0 and 100 for counters that do not go back |
| Telemetry.NeverEarly | monitor/src/telemetry.rs:63-71 | sample k comes no earlier than 100 (k + 1) ms behind the first reading of the clock, whatever happened before |
| Telemetry.NoDrift | monitor/src/telemetry.rs:63-71 | a round whose work fits the time left is back on schedule, whatever the delay before |
| Telemetry.LatenessBounded | monitor/src/telemetry.rs:63-71 | if the first round fits in front of its tick and no later one takes longer than a period, no sample is later than the largest overshoot |
| Telemetry.RisesTelescope | monitor/src/telemetry.rs:53-61 | rises minus falls between successful readings equal last minus first reading, and there are no falls if and only if the counter is monotone |
| Telemetry.AccountsTelescope | monitor/src/telemetry.rs:99-114 | the accounted CPU time equals last reading minus baseline if and only if the counter never fell |
| Template.PiecesText | monitor/src/feedback.rs:108-114 | cutting a template into characters and holes loses nothing |
| Template.ReplaceFills | monitor/src/feedback.rs:108-114 | one replacement over flat pieces fills exactly the holes of that name |
| Template.SequentialIsSimultaneous | monitor/src/feedback.rs:84-114 | for every template whose braces do not nest, and values none of which can start a placeholder that is replaced later, replacing one placeholder after the other is one simultaneous left-to-right substitution |
| Template.SequentialLowers | monitor/src/feedback.rs:110-112 | replacements by values without an opening brace take away a brace wherever a placeholder occurs, and never add one |
| Feedback.SubstitutionExactly | monitor/src/feedback.rs:84-114 | for a brace-free call name and any arguments: sequential replacement is simultaneous substitution on all templates whose braces do not nest, if and only if no suffix of the profile name from an opening brace on is a prefix of an argument's placeholder or begins with one |
| Feedback.NestedDiffers | monitor/src/feedback.rs:84-114 | on a template with nested braces they differ for every call name and all arguments, even if the profile name is a digit |
| Feedback.Substitute | monitor/src/feedback.rs:108-114 | the loop of replacements is the sequential substitution of name, profile and the six arguments in decimal, each for its own placeholder, and so the simultaneous one under those conditions |
| Feedback.BindingsExactly | monitor/src/feedback.rs:108-114 | the eight placeholders in the order of their replacement: the call, the profile, and argument i in decimal for `{arg<i>}` |
| Explorer.LookupAction | website/src/data/model.ts:47-53 | answers every name as the monitor's map does, and says whether a rule lists it |
| Explorer.CountActions | website/src/data/model.ts:75-81 | every distinct name counts once, under the action its lookup gives; the counts add up to the number of distinct names |
| Explorer.GroupsAgree | website/src/data/model.ts:56-66 | with disjoint groups the first group that lists a name is the last one |
| Explorer.FeedbackMap.constructor | monitor/src/feedback.rs:66-82 | the flattened map gives every name the entry of the last group that lists it |
| Explorer.FeedbackMap.Build | monitor/src/feedback.rs:85-103 | the message is the entry of the name, or the default, with its placeholders replaced |
| Explorer.FillAgrees | website/src/data/model.ts:56-66 | two replacements and one pass for the arguments fill a template as the monitor's eight replacements do, for un-nested braces and profile names that can start no placeholder |
| Explorer.SemanticAgrees | website/src/data/model.ts:56-66 | the explorer shows the message the monitor makes |
| Bridge.AboveIsSuffix | server/src/index.js:267-282 | the rows above the cursor are those from some place on, all of them and no other |
| Bridge.Publisher.Init | server/src/index.js:45-56 | after it the next poll sends none of the rows that were there, and exactly those inserted later |
| Bridge.Publisher.Poll | server/src/index.js:267-282 | the rows above the cursor are broadcast in id order and the cursor ends at the last of them |
| Bridge.Publisher.Clear | server/src/index.js:106-121 | whether or not the cursor goes back to 0, once the rows are deleted the next poll sends every row inserted later |
| Bridge.Publisher.Connect | server/src/index.js:78-90 | a new client gets the newest rows, fifty or all there are, in ascending order and without a gap |
| Bridge.Open | server/src/index.js:45-56 | a new bridge whose cursor was set, or not, is where the runs begin |
| Bridge.Perform | server/src/index.js:45-282 | every step of a run is a call of the code, and leaves the feed that the step says |
| Bridge.RunKeeps | server/src/index.js:45-56 | the cursor separates what was broadcast or skipped from what is to come, through all inserts, polls, clears and joins |
| Bridge.ExactlyOnce | server/src/index.js:245-282 | over any interleaving the broadcast ids ascend; after a poll each row of the table newer than the start has been broadcast exactly once, and no older one |
| Bridge.ClientSeesAll | server/src/index.js:78-90 | after a poll a client has received every row of the table from its backfill start on, twice if the row was in its backfill but not yet polled when it joined and otherwise once |
| Bridge.ToldTwice | server/src/index.js:78-90 | insert, join and poll: a run in which a client is told of a row twice |

## Left out

- JsonParser.Parser.ParseValue: the text of error messages and the depth of the C stack; characters stand for bytes.
- JsonSpec.Number: the value of a `double`; its text is kept, and its cast to an integer is a parameter. Locales with another decimal point than `.`.
- JsonRoundTrip.StringReads: a unicode escape stands for `?`, as in the code, so strings that need one do not come back.
- JsonAccepts.ValueSpells: the converse, that such a text is accepted wherever it ends, is stated for the texts of RFC 8259 only, by `ReadsDocument`.
- JsonRoundTrip.RoundTrip: numbers with a fraction or an exponent, whose value the reader keeps as a `double`.
- Profile.Table.Load: the resource, network and file-system sections of a profile, which are plain member reads; in sb_profile_load, reading the file.
- Profile.ReadRule: libseccomp's name table and the cast of a `double` are parameters.
- EndToEnd.LoadTable: reading the file, and the allocation of the table itself.
- Filter.Context.RuleAdd: what libseccomp makes of a second rule for the same number is left open, so `Compile` and the profile-level condition of `Install` speak of distinct numbers only.
- EndToEnd.Deploy: of a table with a number twice only the policy is described, since its filter is libseccomp's choice; calls the architecture lacks.
- LaunchProgress.ProfileLaunchesExactly: the filter of a table with a number twice is taken to follow the first rule; the numbers of write, sendmsg, close and execve are those of x86-64.
- Serde.PlainFilesReadAlike: other spellings that serde takes (a record as an array, an action as an object of one member), and its limit on the depth of nesting; the fields are the ones of policy.rs:26-66.
- ProfileFiles.EveryProfileHasAFile: names with characters that are not printable ASCII.
- Handshake.Exchange: replacement of bytes that are not UTF-8; arguments are ASCII.
- EventLoop.Loop: the text of the messages on stderr and the further columns of an audit row; `poll`, `recv` and the kernel's replies are inputs.
- Launch.LaunchSafety: the system calls themselves are steps that succeed or fail; `--no-monitor`, the grandchildren of the target and the clean-up behind the parent's last wait.
- LaunchProgress.LaunchesExactly: calls a C library may make between the filter and the exec besides write, sendmsg, close and execve.
- Audit.AuditSafety: writes succeed and no row is deleted during a run (the bridge's clear_database would remove the execution itself); crashes and lock poisoning.
- Feedback.NestedDiffers: one template for each argument; which templates with nested braces do no harm is not told apart.
- Explorer.FillAgrees: JavaScript's `$` patterns in replacement texts, and calls with fewer than six arguments.
- Telemetry.Run: readings of memory, the parsing of /proc/stat and cpu.stat, and the rounding of floating point.
- Bridge.Publisher.Poll: the samples and the events are two feeds alike, so one is modelled; the sample backfill (20 rows of the latest execution), a broadcast that throws half way, and the list of active sandboxes.
- execute_code and kill_sandbox of the bridge, the dashboards, translator and MCP handlers: they start processes or hold fixed texts.
- overlayfs.c, capability.c, namespace.c, cgroup.c and util.c: wrappers over kernel interfaces, present only as labels of the launch.
- ebpf/mod.rs: a stub.
