# Verified models of the networking examples

The project models the protocols, parsers and event loops of the *UNIX Network Programming*
sources under `unpv1e3/`, and proves what they are meant to guarantee: over every input, every
run and every interleaving.

| module | models |
|---|---|
| `Prefork`, `PreforkParent` | the preforked server that passes descriptors to its children: parent, N children and the stream pipes between them |
| `Text`, `Inet4`, `InetAton`, `Inet6Parse`, `Inet6Text`, `Inet6Case`, `Inet6Language`, `Inet6Print`, `Inet6Canonical` | `inet_pton`, `inet_ntop` and `inet_aton`, against the grammars of section 2.2 of RFC 4291 and the compression rule of section 4.2 of RFC 5952 |
| `Rtt`, `DgSendRecv` | the retransmitting UDP client with its round-trip estimators, the echo server, and a network that loses, duplicates, delays and reorders |
| `ThreadQueue`, `ProdCons`, `SigioQueue` | three bounded queues: a mutex and condition variable shared by any number of threads, a producer and a consumer, a signal handler against a main loop |
| `AddrInfoSpec`, `AddrInfo` | the result list of `getaddrinfo`, which is cloned into while it is walked: on values, and on the heap |
| `Checksum`, `UdpWrite` | the Internet checksum and the UDP datagram built around it |
| `ReadLine`, `StrCli`, `Web`, `SelectServer` | buffered `readline` against the byte-at-a-time one, the two-buffer copier, the bounded parallel fetcher, the `select` server |
| `Prelude` | small shared types and sequence algebra |

Code that works step by step is a class or a method over arrays with loops; each such method is
proved equal to a function of the old state (`View`, `Contents`, `Shows`, `Stream`, ...), and what the
source promises is proved about that function. Concurrent programs are state machines: `Enabled`
and `Next` give the steps, `Reachable` the states of all runs, and an invariant kept by every step
gives the theorems. System calls are parameters or explicit steps: what `select` reports, what a
`read` delivers, when an alarm rings, who is woken, is arbitrary.

## Findings

The proofs follow the code where it differs from its own comments.

- `inet_pton6` says of itself that `::` in a full address is silently ignored
  (`unpv1e3/libfree/inet_pton.c:134`). It is not: the shift by hand zeroes every byte after the
  `::`. `Inet6Text.FullDoubleColonIgnoredIff` gives the exact condition,
  `Inet6Text.FullDoubleColonExample` an address that is read as sixteen zero bytes.
- `inet_pton6` accepts more than section 2.2 of RFC 4291 allows. `Inet6Language.AcceptedIff` is its
  exact language, and `Inet6Language.AcceptedIsRfcTextIff` says which accepted text is not RFC text:
  text that ends in a single colon, that writes all eight groups beside a `::`, or that has a group
  of more than four or an octet of more than three digits. `1::2:`, `::1:2:3:4:5:6:7:8` and `00001::`
  are examples.
- `inet_aton` lets its `u_long` wrap before it tests for 255: a long digit run can be accepted as a
  small octet (`InetAton.AtonWraps`). `InetAton.AtonStricterIff` says exactly which of its texts
  `inet_pton4` accepts too.
- The size test of `inet_ntop4` has no room for the terminating NUL when the text is exactly `size`
  long: the call stays inside its buffer if and only if the text has another length
  (`Inet4.StaysInsideIff`), 0.0.0.0 and size 7 do not (`Inet4.ZerosOverrunSeven`), and a `size` of at
  least 16 is always safe (`Inet4.SixteenIsEnough`). `inet_ntop6` counts the NUL and never writes at
  or behind `size` (`Inet6Print.InetNtop6`).
- The return value of a `readline` that does not fail is not the number of bytes stored exactly when
  as many bytes as fit come first and none is a newline; it is then one too large
  (`ReadLine.CountIsWrongIff`, `ReadLine.CountIsWrongExample`). A call that fails returns -1 although
  bytes may have been stored (`ReadLine.FailsIff`); after it `readlinebuf` returns -1 too
  (`ReadLine.Reader.ReadLineBuffered`).
- `readline` with a `maxlen` of 0 stores a NUL all the same: a call stays inside
  its `maxlen` bytes if and only if `maxlen` is at least 1 (`ReadLine.StaysInsideIff`,
  `ReadLine.ZeroOverruns`).
- The fetcher with a `maxnconn` of 0 or less starts nothing and calls `select` with two empty sets for
  ever; with a positive one `select` always has a descriptor to wait for
  (`Web.WaitsForSomethingIff`, `Web.NoTurnWithoutLimit`, `Web.BlocksForEverExample`).
- The SIGIO ring of 8 and the descriptor ring of 32 are abandoned on storing the 8th datagram and
  the 32nd descriptor: their capacities are 7 and 31. Both happen (`SigioQueue.OverflowIsReachable`,
  `ThreadQueue.QuitIsReachable`).
- `str_cli` returns on end of file from the socket although bytes may be left for standard output:
  the output is complete if and only if the `fr` buffer was empty at the last `select`
  (`StrCli.ReturnedRunCompleteIff`); `StrCli.ReturnLosesExample` is a run that loses a byte.

## Assumptions

- Children, threads and descriptors live as long as the program; a program that calls `err_quit`
  or `err_sys` is in a final state.
- Beyond a caller's buffer there may be memory; a store past the end of all of it is an outcome of its
  own (`PastTheEnd`, `pastEnd`).
- `select` may report any of the ready descriptors it was asked about; condition variables may wake
  spuriously, and a signal may wake more than one thread.
- The client of `DgSendRecv` receives only what the echo server sends, any number of times, in any
  order, or never.
- Floating point is `real`. The clock never goes back and is a parameter. 32-bit counters wrap as in
  C; where a theorem needs fewer than 2^32 calls it says so.

## Model

| member | source | states |
|---|---|---|
| `Prefork.ReachableInv` | unpv1e3/server/serv05.c:43-81 | every state that parent, N children and pipes can reach satisfies the invariant: statuses, counts, `navail`, `nsel` and the pipes agree |
| `Prefork.StepKeeps` | unpv1e3/server/child05.c:40-50 | each step of the parent or of a child keeps that invariant; the state "no available children" is never entered |
| `Prefork.StatusMeansBusy` | unpv1e3/server/serv05.c:54-76 | `child_status` is 1 exactly when one of these holds, and then only one: descriptor on its way to the child, child serving or replying, ready byte on its way back |
| `Prefork.Accounting` | unpv1e3/server/serv05.c:58-76 | `navail` is the number of zero statuses, the counts add up to the accepted connections, and `err_quit("no available children")` is unreachable |
| `Prefork.EachConnectionOnce` | unpv1e3/server/serv05.c:52-65 | what a child has served, serves and is being sent is exactly the connections given to it, each once and in order of acceptance; `child_count` is their number |
| `Prefork.NothingReportedIsSkipped` | unpv1e3/server/serv05.c:66-79 | returning to `select` when `nsel` reaches 0 leaves no reported pipe unread |
| `Prefork.Progress` | unpv1e3/server/serv05.c:43-81 | unless everything accepted is served and all is idle, parent or some child can take a step |
| `Prefork.RunsAreFinite` | unpv1e3/server/serv05.c:43-81 | without new connections every run ends, whatever the scheduling: its length is at most a bound computed from the state it starts in |
| `Prefork.StuckIsServed` | unpv1e3/server/child05.c:40-50 | where nothing but a new connection is possible, everything accepted has been served, each connection by the child it was given to, in order |
| `PreforkParent.Parent.constructor` | unpv1e3/server/serv05.c:30-39 | the table starts with all children available |
| `PreforkParent.Parent.FindAvailable` | unpv1e3/server/serv05.c:54-56 | the first child whose status is 0 |
| `PreforkParent.Parent.MarkBusy` | unpv1e3/server/serv05.c:54-62 | marks the first available child and counts the connection; there is one whenever `navail` is positive |
| `PreforkParent.Parent.Collect` | unpv1e3/server/serv05.c:70-80 | frees exactly the children reported ready although the loop stops early |
| `PreforkParent.Parent.Turn` | unpv1e3/server/serv05.c:47-80 | the whole effect of one turn on statuses, counts and `navail` |
| `PreforkParent.ScanRun` | unpv1e3/server/serv05.c:70-80 | from the start of the pass over the children, steps of the parent alone lead back to `select` with the statuses and the `navail` that `Collect` computes |
| `PreforkParent.TurnIsRun` | unpv1e3/server/serv05.c:43-81 | what `Turn` computes for statuses, counts and `navail` is what a run of the concurrent machine from `select` to `select` does, by steps of the parent alone |
| `Inet4.QuadGrammar` | unpv1e3/libfree/inet_pton.c:95-124 | `Quad` accepts exactly four nonempty digit runs of value at most 255 joined by single dots, with their values |
| `Inet4.InetPton4` | unpv1e3/libfree/inet_pton.c:86-125 | returns 1 and stores the address exactly for those texts; otherwise 0 with `dst` untouched |
| `Inet4.InetNtop4` | unpv1e3/libfree/inet_ntop.c:86-102 | the memory after a call, for every `size` and every text: unchanged for NULL, otherwise the quad and its NUL, which falls behind the buffer when the text is `size` long |
| `Inet4.StaysInsideIff` | unpv1e3/libfree/inet_ntop.c:96-100 | a call writes to its buffer of `size` characters only, if and only if the text is not exactly `size` long |
| `Inet4.SixteenIsEnough` | unpv1e3/libfree/inet_ntop.c:93-100 | with a `size` of at least 16 the call succeeds and stays inside |
| `Inet4.ZerosOverrunSeven` | unpv1e3/libfree/inet_ntop.c:96-100 | 0.0.0.0 does not stay inside a buffer of 7 |
| `Inet4.QuadRoundTrip` | unpv1e3/libfree/inet_ntop.c:92-95 | every address printed reads back as itself; the text fits the local buffer |
| `InetAton.InetAton` | unpv1e3/libfree/inet_aton.c:22-75 | computes the four bytes of one to four parts, with the wrap-around of `u_long`, or rejects |
| `InetAton.AtonAcceptsQuads` | unpv1e3/libfree/inet_aton.c:25-74 | accepts every dotted quad, with the address `inet_pton4` gives |
| `InetAton.AtonStricterIff` | unpv1e3/libfree/inet_aton.c:28-62 | of the texts it accepts, exactly those of four nonempty parts that do not wrap are dotted quads |
| `InetAton.AtonGrammar` | unpv1e3/libfree/inet_aton.c:28-62 | accepted are exactly at most four runs of digits between dots, empty ones included, each at most 255 after whole multiples of the size of a `u_long` are taken away |
| `InetAton.AtonPads` | unpv1e3/libfree/inet_aton.c:55-72 | one to four octets are the first bytes of the address in network order, the others are 0 |
| `InetAton.AtonWraps` | unpv1e3/libfree/inet_aton.c:42-54 | for every width of `u_long` a part far above 255 is accepted because it wraps to 1 |
| `Inet6Parse.ShiftByHand` | unpv1e3/libfree/inet_pton.c:205-218 | the overlapping shift in one buffer leaves what inserting zeros at `colonp` would |
| `Inet6Parse.Scan6` | unpv1e3/libfree/inet_pton.c:159-204 | the scanning loop computes the bytes and the place of the `::` that the tokens of the text determine, or fails when they determine none |
| `Inet6Parse.InetPton6` | unpv1e3/libfree/inet_pton.c:140-224 | returns 1 with the bytes of `Pton6`, or 0 with `dst` untouched |
| `Text.HexTables` | unpv1e3/libfree/inet_pton.c:145-166 | the hexadecimal digits are the characters of the two tables, each with its place as its value |
| `Text.DecTable` | unpv1e3/libfree/inet_pton.c:91-101 | the decimal digits are the characters of the table, with their places as values |
| `Inet6Case.CaseDoesNotMatter` | unpv1e3/libfree/inet_pton.c:165-169 | texts that differ only in the case of their letters are accepted alike, with the same address |
| `Inet6Case.FourDigits` | unpv1e3/libfree/inet_pton.c:168-186 | of four digits of a group the first two make the first byte, the others the second, the first of each two counting sixteen |
| `Inet6Case.ThreeDigits` | unpv1e3/libfree/inet_pton.c:102 | of three decimal digits the first counts a hundred, the second ten |
| `Inet6Text.FullFormParses` | unpv1e3/libfree/inet_pton.c:162-204 | every full form of RFC 4291, with or without a trailing dotted quad, is accepted with its bytes |
| `Inet6Text.CompressedFormParses` | unpv1e3/libfree/inet_pton.c:175-218 | every form with a `::` for at least one zero group is accepted with its bytes |
| `Inet6Text.RfcTextParses` | unpv1e3/libfree/inet_pton.c:127-224 | every text of section 2.2 of RFC 4291 is accepted and denotes what it should |
| `Inet6Language.AcceptedForm` | unpv1e3/libfree/inet_pton.c:152-224 | every accepted text is two halves around a `::`, or one half, with at most a colon behind it, and has the address that says |
| `Inet6Language.FormParses` | unpv1e3/libfree/inet_pton.c:152-224 | and every text made that way is accepted with that address |
| `Inet6Language.AcceptedIff` | unpv1e3/libfree/inet_pton.c:152-224 | the exact language of `inet_pton6`, with the address of each text |
| `Inet6Language.AcceptedIsRfcTextIff` | unpv1e3/libfree/inet_pton.c:127-138 | accepted text is RFC 4291 text if and only if it does not end in a single colon, does not write all eight groups beside a `::`, and has no overlong group or octet |
| `Inet6Language.TrailingColonAccepted` | unpv1e3/libfree/inet_pton.c:175-190 | a colon behind any accepted text that ends in a group: accepted with the same address, and not RFC 4291 text |
| `Inet6Language.TrailingColonExample` | unpv1e3/libfree/inet_pton.c:175-190 | 1::2: is such a text |
| `Inet6Language.FullDoubleColonAccepted` | unpv1e3/libfree/inet_pton.c:205-218 | eight groups around a `::` are accepted, and no RFC 4291 text |
| `Inet6Language.LongGroupAccepted` | unpv1e3/libfree/inet_pton.c:165-174 | a group has any number of digits as long as its value fits; beyond four it is no RFC 4291 text |
| `Inet6Language.LongGroupExample` | unpv1e3/libfree/inet_pton.c:165-174 | the digit 1 behind any number of zeros, then `::`, as in 00001::, has the address of 1::; from four zeros on it is no RFC 4291 text |
| `Inet6Text.DoubleColonParses` | unpv1e3/libfree/inet_pton.c:205-218 | what two halves around a `::` give, also when no group is missing |
| `Inet6Text.FullDoubleColonIgnoredIff` | unpv1e3/libfree/inet_pton.c:134 | a `::` in a full address is ignored if and only if all bytes after it are zero |
| `Inet6Text.LeadingDoubleColonLoses` | unpv1e3/libfree/inet_pton.c:205-218 | eight groups after a leading `::` are all lost |
| `Inet6Text.FullDoubleColonExample` | unpv1e3/libfree/inet_pton.c:134 | an address for which the comment is false |
| `Inet6Text.QuadsRejected` | unpv1e3/libfree/getaddrinfo.c:267-276 | no dotted quad is IPv6 text, so the family inferred from a text is unambiguous |
| `Inet6Print.FindBest` | unpv1e3/libfree/inet_ntop.c:136-157 | finds the leftmost of the longest runs of at least two zero words, or that there is none (section 4.2 of RFC 5952) |
| `Inet6Print.GatherWords` | unpv1e3/libfree/inet_ntop.c:133-135 | the eight words of the address |
| `Inet6Print.PutQuad` | unpv1e3/libfree/inet_ntop.c:175-181 | the embedded dotted quad completes the text of an IPv4-compatible or IPv4-mapped address |
| `Inet6Print.Format` | unpv1e3/libfree/inet_ntop.c:159-187 | the formatting loop stays in its 46 characters and writes the words with the best run as `::` |
| `Inet6Print.InetNtop6` | unpv1e3/libfree/inet_ntop.c:110-199 | stores the text, at most 45 characters, and its NUL when both fit, otherwise leaves `dst` alone; nothing else of `dst` changes, and nothing at or behind `size` |
| `Inet6Print.TextUnique` | unpv1e3/libfree/inet_ntop.c:133-188 | an address has one text |
| `Inet6Print.TextIsRfcText` | unpv1e3/libfree/inet_ntop.c:133-188 | that text is RFC 4291 text for the address |
| `Inet6Print.RoundTrip` | unpv1e3/libfree/inet_pton.c:152-223 | `inet_pton6` maps the text of every address back to the same 16 bytes |
| `Inet6Print.TextInjective` | unpv1e3/libfree/inet_ntop.c:133-188 | different addresses have different texts |
| `Inet6Canonical.DottedQuadIff` | unpv1e3/libfree/inet_ntop.c:174-181 | a dotted quad is written exactly for ten zero bytes followed by ff ff, as `::ffff:` and the quad, or by 0 0 and a nonzero pair, as `::` and the quad |
| `Inet6Canonical.DoubleColonIsBestRun` | unpv1e3/libfree/inet_ntop.c:136-187 | a `::` is written exactly when two words in a row are zero; it has as many groups before it as words come before the leftmost longest run, and as many groups are written as words lie outside the run |
| `Inet6Canonical.NoLeadingZeros` | unpv1e3/libfree/inet_ntop.c:182 | no group has zeros in front (section 4.1 of RFC 5952) |
| `Inet6Canonical.LowerCase` | unpv1e3/libfree/inet_ntop.c:182 | all letters are lower-case (section 4.3 of RFC 5952) |
| `Rtt.RttInfo.Init` | unpv1e3/lib/rtt.c:22-35 | the initial estimators: smoothed 0, deviation 0.75, timeout 3 seconds |
| `Rtt.RttInfo.Stop` | unpv1e3/lib/rtt.c:80-102 | a sample updates the estimators and the clamped timeout as the recurrence on values does |
| `Rtt.RttInfo.Timeout` | unpv1e3/lib/rtt.c:111-119 | doubles the timeout; -1 exactly after the fourth expiry |
| `Rtt.AlarmBounds` | unpv1e3/lib/rtt.c:62-119 | every alarm of a request is between 2 and 480 seconds, at most 60, 120, 240 for the first three |
| `Rtt.GivesUpWithin` | unpv1e3/lib/rtt.c:111-119 | the alarms of an unanswered request add up to between 30 and 900 seconds |
| `Rtt.SteadyDecays` | unpv1e3/lib/rtt.c:93-101 | after k equal samples m the error of the smoothed time is exactly (7/8)^k m, the deviation decaying with it |
| `Rtt.SteadyFrom` | unpv1e3/lib/rtt.c:93-101 | the same from any estimators, below the samples or above them |
| `Rtt.AlarmRounds` | unpv1e3/lib/rtt.c:62-66 | the alarm is the timeout rounded to the nearest second, halves upward |
| `Rtt.DecayedPower` | unpv1e3/lib/rtt.c:93-94 | the decay is the k-th power |
| `DgSendRecv.Caller.Call` | unpv1e3/rtt/dg_send_recv.c:26-63 | up to the first transmission: next sequence number, count of retransmissions reset, timestamp, alarm |
| `DgSendRecv.Caller.Alarmed` | unpv1e3/rtt/dg_send_recv.c:68-79 | an alarm retransmits with a new timestamp, or gives up and forgets the estimators |
| `DgSendRecv.Caller.Received` | unpv1e3/rtt/dg_send_recv.c:81-92 | a datagram with another number is ignored; otherwise the sample is taken and the size returned |
| `DgSendRecv.ReplyIsAnEcho` | unpv1e3/rtt/dg_echo.c:10-15 | whatever the network does, an accepted reply is the echo of a request really sent, with the same 32-bit number |
| `DgSendRecv.SuccessIsCurrent` | unpv1e3/rtt/dg_send_recv.c:56-92 | a successful call returns the echo of its own data, and the sample is the time since a transmission of this very request, also after retransmissions |
| `DgSendRecv.EstimatorsLearn` | unpv1e3/rtt/dg_send_recv.c:88-90 | what a success leaves: the time since the transmission is the sample; the smoothed time moves by an eighth of the difference, whatever its sign, the deviation by a quarter, and the timeout is their sum clamped to [2,60] |
| `DgSendRecv.OnlyItsNumberEnds` | unpv1e3/rtt/dg_send_recv.c:81-86 | a datagram ends the call if and only if it carries the number of the call; others change nothing |
| `DgSendRecv.CallSendsOnce` | unpv1e3/rtt/dg_send_recv.c:26-63 | a call sends its data once, with the next number, and starts from the estimators of the call before or from new ones with 3 seconds |
| `DgSendRecv.AlarmSendsAgain` | unpv1e3/rtt/dg_send_recv.c:68-79 | an alarm after fewer than four transmissions sends the same data again with the time of now and doubles the timeout; after the fourth the call fails and the estimators are forgotten |
| `DgSendRecv.ElapsedMod` | unpv1e3/rtt/dg_send_recv.c:90 | the difference of two 32-bit timestamps is the elapsed time modulo 2^32, also across a wrap |
| `DgSendRecv.AtMostFourTransmissions` | unpv1e3/rtt/dg_send_recv.c:56-79 | a request is transmitted at most four times, with no other request in between |
| `DgSendRecv.TimeoutsInRange` | unpv1e3/rtt/dg_send_recv.c:54-79 | in every reachable state a request starts with a timeout in [2,60] and waits for an alarm of 2 to 480 seconds |
| `DgSendRecv.RequestGivesUpWithin` | unpv1e3/rtt/dg_send_recv.c:54-79 | whenever a request starts, if no answer ever comes its alarms add up to between 30 and 900 seconds |
| `ThreadQueue.Queue.Put` | unpv1e3/server/serv08.c:39-46 | appends to the contents; full exactly when 31 were pending |
| `ThreadQueue.Queue.Take` | unpv1e3/server/pthread08.c:21-27 | removes the oldest descriptor |
| `ThreadQueue.ReachableInv` | unpv1e3/server/serv08.c:35-47 | in every interleaving of the main thread and n workers the ring, the mutex and the wait set agree |
| `ThreadQueue.FirstInFirstOut` | unpv1e3/server/pthread08.c:20-31 | descriptors are taken in the order accepted, each by one thread, at most 31 are pending, and `thread_count` counts them |
| `ThreadQueue.QuitsWhenFull` | unpv1e3/server/serv08.c:40-44 | the server quits exactly when a connection arrives with 31 pending |
| `ThreadQueue.QuitIsReachable` | unpv1e3/server/serv08.c:35-47 | however many threads there are, some run gets there |
| `ThreadQueue.OneHolder` | unpv1e3/server/pthread08.c:21-27 | mutual exclusion between workers and with the main thread |
| `ThreadQueue.NoLostWakeup` | unpv1e3/server/pthread08.c:22-23 | while some thread sleeps, pending descriptors never exceed the threads that a signal has woken and that have not looked at the queue since; threads woken spuriously do not count |
| `ThreadQueue.PendingIsServed` | unpv1e3/server/pthread08.c:20-31 | with a descriptor pending a worker or the main thread can go on without a new connection or a spurious wakeup |
| `ThreadQueue.ServiceIsFinite` | unpv1e3/server/pthread08.c:20-31 | the number of steps between arrivals and spurious wakeups is bounded |
| `ThreadQueue.StuckIsServed` | unpv1e3/server/pthread08.c:20-31 | where nothing but a new connection or a spurious wakeup is possible, every queued descriptor was taken and every thread sleeps |
| `ProdCons.BufT.Store` | unpv1e3/threads/example03.c:70-75 | appends to the circular buffer |
| `ProdCons.BufT.Fetch` | unpv1e3/threads/example03.c:92-97 | removes the oldest item |
| `ProdCons.ReachableInv` | unpv1e3/threads/example03.c:62-104 | in every interleaving `b_nextput` is `b_nextget + b_nitems` round the circle, with the mutex and the sleepers accounted for |
| `ProdCons.ReceivedInOrder` | unpv1e3/threads/example03.c:106-130 | the consumer receives 0, 1, 2, ...; when both loops end all 50 were received |
| `ProdCons.NeverBothAsleep` | unpv1e3/threads/example03.c:66-101 | never both asleep; a sleeper has a reason, and the other side has not finished |
| `ProdCons.Progress` | unpv1e3/threads/example03.c:62-104 | no deadlock before both loops end |
| `ProdCons.LoopsFinish` | unpv1e3/threads/example03.c:106-130 | every step but a spurious wakeup brings the end nearer, from any state satisfying the invariant |
| `ProdCons.RunsAreShort` | unpv1e3/threads/example03.c:106-130 | without spurious wakeups a whole run has at most 504 steps |
| `SigioQueue.EchoQueue.SigIo` | unpv1e3/sigio/dgecho01.c:78-108 | queues all waiting datagrams in order and counts them in the histogram; overflow exactly when the ring would be filled |
| `SigioQueue.EchoQueue.EchoOne` | unpv1e3/sigio/dgecho01.c:64-72 | sends the oldest datagram |
| `SigioQueue.ReachableInv` | unpv1e3/sigio/dgecho01.c:57-107 | the invariant of main loop and handler for every point at which SIGIO can arrive |
| `SigioQueue.IndicesAgree` | unpv1e3/sigio/dgecho01.c:67-72 | `iput` is `iget + nqueue` modulo 8, minus one between the advance of `iget` and `nqueue--` |
| `SigioQueue.HandlerIsSafe` | unpv1e3/sigio/dgecho01.c:85-107 | the handler never writes the slot being sent, and `cntread[nread]` is in range |
| `SigioQueue.EchoedInOrder` | unpv1e3/sigio/dgecho01.c:57-107 | datagrams are echoed once each in order of arrival, or are still in the ring or the kernel |
| `SigioQueue.QuitsAtEight` | unpv1e3/sigio/dgecho01.c:86-87 | outside the handler a slot is free; the handler gives up exactly with eight stored |
| `SigioQueue.OverflowIsReachable` | unpv1e3/sigio/dgecho01.c:85-104 | eight datagrams in one go end the server |
| `SigioQueue.Progress` | unpv1e3/sigio/dgecho01.c:57-73 | while a datagram is not echoed something other than an arrival can happen |
| `SigioQueue.ComesToRest` | unpv1e3/sigio/dgecho01.c:57-107 | without arrivals every run ends |
| `SigioQueue.StuckIsEchoed` | unpv1e3/sigio/dgecho01.c:57-107 | where nothing but an arrival is possible, every datagram has been echoed |
| `AddrInfo.GaClone` | unpv1e3/libgai/ga_clone.c:8-30 | a copy with an address of its own, linked in behind the original, AI_CLONE off |
| `AddrInfo.CloneInList` | unpv1e3/libgai/ga_port.c:38-43 | cloning inside a list gives a list of the old nodes and the copy; no two nodes share an address |
| `AddrInfo.Visit` | unpv1e3/libgai/ga_port.c:38-62 | one entry becomes what the pass makes of it, and the walk stands behind it |
| `AddrInfo.GaPort` | unpv1e3/libgai/ga_port.c:30-65 | the walk ends although it inserts nodes, and the list shows one pass over the old list; the result is the number of ports filled in |
| `AddrInfo.GaServ` | unpv1e3/libgai/ga_serv.c:8-57 | runs exactly the passes the hint and the lookups call for, in order, with the right error code |
| `AddrInfo.Results.constructor` | unpv1e3/libgai/ga_aistruct.c:9-12 | an empty list |
| `AddrInfo.Results.Append` | unpv1e3/libgai/ga_aistruct.c:8-62 | appends one entry, with AI_CLONE exactly when no socket type was asked for |
| `AddrInfo.AppendAll` | unpv1e3/libgai/getaddrinfo.c:132-137 | the host loop makes one entry for each address found, in order |
| `AddrInfo.Resolve` | unpv1e3/libgai/getaddrinfo.c:132-158 | host loop and service lookup together: the list on the heap has exactly the entries of the table, and no two nodes share an address |
| `AddrInfoSpec.AnyNumberOfTypes` | unpv1e3/libgai/ga_port.c:22-26 | k passes over n clonable entries give n groups of k, in the order of the addresses, each socket type with its own port |
| `AddrInfoSpec.StreamThenDgram` | unpv1e3/libgai/ga_port.c:8-21 | after the stream and the datagram pass: two entries for each address, in order, stream then datagram |
| `AddrInfoSpec.UnspecifiedTypeServed` | unpv1e3/libgai/ga_serv.c:15-56 | with no socket type the result is success exactly when some service was found |
| `AddrInfoSpec.SpecifiedTypeServed` | unpv1e3/libgai/ga_port.c:44-62 | with a socket type nothing is cloned and only ports are filled in |
| `AddrInfoSpec.TableServed` | unpv1e3/libgai/ga_serv.c:15-56 | entry by entry and with the return value, every branch: a number without and with a type, a name known to both protocols, to one or to none, for type 0, stream, datagram and any other |
| `Checksum.InCksum` | unpv1e3/libfree/in_cksum.c:4-32 | the loop, the odd byte and the folds compute the complement of the one's-complement sum |
| `Checksum.AddCarries` | unpv1e3/libfree/in_cksum.c:27-31 | carries added back, complemented, truncated |
| `Checksum.TwoFolds` | unpv1e3/libfree/in_cksum.c:28-29 | two additions of the high half suffice for every 32-bit sum |
| `Checksum.NoOverflow` | unpv1e3/libfree/in_cksum.c:16-25 | the 32-bit accumulator does not overflow on any datagram |
| `Checksum.StoredChecksumVerifies` | unpv1e3/ping/send_v4.c:17-19 | stored in its zeroed aligned field, the checksum makes the sum over the whole come out 0 |
| `Checksum.UdpChecksumVerifies` | unpv1e3/udpcksum/udpwrite.c:49-52 | the same after 0 is replaced by 0xffff, and the field is never 0 |
| `Checksum.WordChangeUnnoticedIff` | unpv1e3/udpcksum/udpread.c:76 | replacing one aligned word of data that verifies goes unnoticed exactly when it is the same word, or one zero of one's complement for the other while the rest is not all zero |
| `Checksum.ByteOrderIndependent` | unpv1e3/libfree/in_cksum.c:16-30 | the two bytes stored are the same on hosts of either byte order (section 2 (B) of RFC 1071) |
| `Checksum.NegatesTheSum` | unpv1e3/libfree/in_cksum.c:16-31 | the checksum and the sum of the words add up to a multiple of 65535; it is 0xffff only for data that is all zero |
| `Checksum.NetworkWord` | unpv1e3/libfree/in_cksum.c:16-19 | in network order the first byte of a word counts 256 |
| `Checksum.OddIsPadded` | unpv1e3/libfree/in_cksum.c:21-25 | an odd last byte counts as if a zero followed it |
| `UdpWrite.ImageCoversSame` | unpv1e3/udpcksum/udpwrite.c:37-51 | the image summed has the checksum of the RFC 768 pseudo-header, header and data, in another order |
| `UdpWrite.FillAndSum` | unpv1e3/udpcksum/udpwrite.c:34-56 | pseudo-header and UDP header filled in, checksum stored |
| `UdpWrite.UdpWrite` | unpv1e3/udpcksum/udpwrite.c:28-74 | every header field of the datagram sent but the IP checksum, which the kernel computes; the data untouched; the receiver's check over it is 0 unless checksums are off |
| `UdpWrite.NetworkOrder16` | unpv1e3/udpcksum/udpwrite.c:39-64 | lengths are stored with the byte that counts 256 first |
| `ReadLine.ReadOneShape` | unpv1e3/lib/readline.c:34-48 | return value, bytes stored, NUL and rest of the stream of one call, for every `maxlen`, in closed form: cut at the limit, or ended by newline, end of file or error |
| `ReadLine.CountIsWrongIff` | unpv1e3/lib/readline.c:35-48 | for a call that does not fail: the return value differs from the number of bytes stored if and only if the first `maxlen - 1` items are bytes without a newline; it is then one too large |
| `ReadLine.FailsIff` | unpv1e3/lib/readline.c:43-44 | a call returns -1 if and only if an error comes before a newline, the limit and the end of file; the bytes before it are stored, without a NUL |
| `ReadLine.StaysInsideIff` | unpv1e3/lib/readline.c:35-48 | a call writes to its first `maxlen` bytes only, whatever the stream, if and only if `maxlen` is at least 1 |
| `ReadLine.ZeroOverruns` | unpv1e3/lib/readline.c:47 | with a `maxlen` of 0 the NUL replaces the byte behind the buffer |
| `ReadLine.CountIsWrongExample` | unpv1e3/lib/readline.c:47-48 | three letters into a buffer of three: 3 is returned, two are stored |
| `ReadLine.ReadLineSlow` | unpv1e3/test/readline1.c:5-30 | the byte-at-a-time version returns what the stream determines and leaves exactly the memory that says: stored bytes, NUL, everything behind as it was |
| `ReadLine.Reader.MyRead` | unpv1e3/lib/readline.c:8-26 | delivers the next byte of buffer and kernel together, retrying after EINTR |
| `ReadLine.Reader.ReadLineBuffered` | unpv1e3/lib/readline.c:28-49 | the buffered version returns the same and leaves the same memory and the rest of the stream; it leaves a count of -1 for `readlinebuf` exactly when it fails (a `maxlen` below 2 reads nothing and leaves the count alone) |
| `ReadLine.Reader.ReadLineBuf` | unpv1e3/lib/readline.c:51-57 | exposes exactly the bytes not yet returned; a count of -1 after a failed read |
| `ReadLine.ChunkingUnobservable` | unpv1e3/lib/readline.c:12-21 | chunk boundaries and interruptions cannot be observed |
| `ReadLine.CallSlow` | unpv1e3/test/readline1.c:5-30 | any sequence of slow calls yields the return values and stored bytes the stream determines |
| `ReadLine.CallBuffered` | unpv1e3/lib/readline.c:28-49 | any sequence of buffered calls yields the same |
| `ReadLine.CallBoth` | unpv1e3/lib/readline.c:28-49 | the two return the same values and store the same bytes on streams that deliver the same, however they are cut |
| `StrCli.Copier.ReadStdin` | unpv1e3/nonblock/strclinonb.c:42-62 | a read of standard input: bytes behind those buffered, or end of file with the half-close if nothing is left to send |
| `StrCli.Copier.ReadSocket` | unpv1e3/nonblock/strclinonb.c:64-86 | a read of the socket, or the end of the program |
| `StrCli.Copier.WriteStdout` | unpv1e3/nonblock/strclinonb.c:89-103 | what is written leaves the front of the buffer; an emptied buffer starts again |
| `StrCli.Copier.WriteSocket` | unpv1e3/nonblock/strclinonb.c:105-122 | the same for the socket, with the half-close after the last byte |
| `StrCli.Copier.OneTurn` | unpv1e3/nonblock/strclinonb.c:27-123 | the four pointers and two buffers do what one turn does on values |
| `StrCli.Copier.StrCli` | unpv1e3/nonblock/strclinonb.c:27-123 | the loop does what `Run` does on values; `shutdown` is called only once and nothing is written after it |
| `StrCli.TurnKeeps` | unpv1e3/nonblock/strclinonb.c:27-123 | sent, buffered and yet to come add up to the content of each descriptor; at the loop head the half-close has happened exactly when standard input has ended and the buffer is empty |
| `StrCli.RunKeeps` | unpv1e3/nonblock/strclinonb.c:27-123 | the same over every run |
| `StrCli.CopiesFaithfully` | unpv1e3/nonblock/strclinonb.c:27-123 | from the start: prefixes only, all of standard input before the half-close, and after a normal return exactly the bytes still in `fr` are missing on standard output |
| `StrCli.TurnMoves` | unpv1e3/nonblock/strclinonb.c:42-122 | a turn that goes on, for both directions: what is read goes behind the buffer; if bytes are buffered then, and some were just read or the descriptor was writable with bytes buffered before, the front is written as far as the kernel takes it; otherwise nothing |
| `StrCli.TurnEnds` | unpv1e3/nonblock/strclinonb.c:42-86 | how a turn ends: normally or not exactly at end of file of the socket, depending on whether standard input has ended; a failing read ends it |
| `StrCli.EverythingIsSent` | unpv1e3/nonblock/strclinonb.c:27-123 | with standard input and socket ready at every `select` and a socket that always takes something, all of standard input is sent and followed by the half-close within a bounded number of turns, unless the other side ends the program |
| `StrCli.ReturnCompleteIff` | unpv1e3/nonblock/strclinonb.c:69-76 | a turn that returns leaves standard output complete if and only if nothing was buffered for it when the turn began |
| `StrCli.ReturnedRunCompleteIff` | unpv1e3/nonblock/strclinonb.c:69-76 | the same for whole runs: complete if and only if `fr` was empty at the last `select` |
| `StrCli.ReturnLosesExample` | unpv1e3/nonblock/strclinonb.c:69-76 | a run of two turns that loses a byte |
| `Web.CountsMeaning` | unpv1e3/nonblock/web.c:28-36 | what the three counters say about the files |
| `Web.CountsAreNumbers` | unpv1e3/nonblock/web.c:26-27 | the three counters are the numbers of files in progress, not done, and untouched |
| `Web.SetsAre` | unpv1e3/nonblock/start_connect.c:20-26 | `rset` has exactly the descriptors of the files in progress, `wset` those of the connecting ones |
| `Web.StartKeeps` | unpv1e3/nonblock/start_connect.c:17-30 | a started file enters the sets and counters consistently |
| `Web.EstablishKeeps` | unpv1e3/nonblock/web.c:50-61 | an established connection leaves the write set only |
| `Web.FinishKeeps` | unpv1e3/nonblock/web.c:63-71 | a finished file leaves sets and counters |
| `Web.TablesMean` | unpv1e3/nonblock/web.c:28-45 | "nothing found" is unreachable, and with nothing left to read all files are done and the sets empty |
| `Web.WaitsForSomethingIff` | unpv1e3/nonblock/web.c:28-44 | with something left to read and no more connects to start, `select` has a descriptor to wait for if and only if `maxnconn` is positive |
| `Web.NoTurnWithoutLimit` | unpv1e3/nonblock/web.c:28-78 | with a `maxnconn` of 0 or less no turn changes an untouched table |
| `Web.BlocksForEverExample` | unpv1e3/nonblock/web.c:28-44 | a `maxnconn` of 0 and one file: both sets are empty, and no turn does anything |
| `Web.Fetcher.StartConnect` | unpv1e3/nonblock/start_connect.c:4-31 | the file connects or is connected at once, its descriptor enters the sets |
| `Web.Fetcher.WriteGetCmd` | unpv1e3/nonblock/write_get_cmd.c:3-18 | the file is being read |
| `Web.Fetcher.FindFile` | unpv1e3/nonblock/web.c:31-36 | the first untouched file; there is one |
| `Web.Fetcher.StartMore` | unpv1e3/nonblock/web.c:29-40 | starts untouched files in order until `maxnconn` are in progress or none is left; then `select` has something to wait for if and only if `maxnconn` is positive |
| `Web.Fetcher.Scan` | unpv1e3/nonblock/web.c:46-77 | every file advances as far as `select` and end of file allow, none is missed |
| `Web.Fetcher.OneTurn` | unpv1e3/nonblock/web.c:28-78 | counters and sets stay exact, `nconn` never exceeds `maxnconn`, and the flags change as one turn prescribes |
| `Web.Fetcher.Run` | unpv1e3/nonblock/web.c:28-79 | the run of the main loop turn by turn; it ends by itself only when every file is done, with no descriptor left |
| `Web.RunIsForward` | unpv1e3/nonblock/web.c:46-79 | no file ever moves back, so each is done at most once |
| `Web.TurnTable` | unpv1e3/nonblock/web.c:28-77 | for every file, when a turn leaves it untouched, connecting, being read or done, in terms of what `select` reported and which reads found end of file |
| `Web.DoneHadEndOfFile` | unpv1e3/nonblock/web.c:63-71 | a file that is done was reported readable in some turn, and its read found end of file |
| `SelectServer.NeverFull` | unpv1e3/tcpcliserv/tcpservselect01.c:48-54 | "too many clients" is unreachable while descriptors stay below FD_SETSIZE |
| `SelectServer.EachReadyClientOnce` | unpv1e3/tcpcliserv/tcpservselect01.c:66-81 | a full service meets every ready client exactly once and nobody else |
| `SelectServer.EchoesWhatWasRead` | unpv1e3/tcpcliserv/tcpservselect01.c:70-76 | what is echoed is what was read, and a client is closed exactly when nothing was |
| `SelectServer.ClosedAreGone` | unpv1e3/tcpcliserv/tcpservselect01.c:66-81 | after a pass a client is in the table if and only if it was there and its end of file was not read |
| `SelectServer.StopEarly` | unpv1e3/tcpcliserv/tcpservselect01.c:78-79 | with no ready client to come, stopping is the same as going on |
| `SelectServer.AddKeeps` | unpv1e3/tcpcliserv/tcpservselect01.c:48-60 | a new client keeps `allset`, `maxi` and `maxfd` right |
| `SelectServer.CloseKeeps` | unpv1e3/tcpcliserv/tcpservselect01.c:70-74 | a closed client leaves table and set, the bounds still hold |
| `SelectServer.Server.constructor` | unpv1e3/tcpcliserv/tcpservselect01.c:26-31 | an empty table and the listening descriptor |
| `SelectServer.Server.Enter` | unpv1e3/tcpcliserv/tcpservselect01.c:48-60 | the new client gets the first free entry, or there is none |
| `SelectServer.Server.ServeClient` | unpv1e3/tcpcliserv/tcpservselect01.c:69-76 | echo, or close and forget on end of file |
| `SelectServer.Server.ServeAll` | unpv1e3/tcpcliserv/tcpservselect01.c:66-81 | the pass that stops early serves every ready client and changes nothing else |
| `SelectServer.Server.OneTurn` | unpv1e3/tcpcliserv/tcpservselect01.c:35-82 | one turn: a connection entered, every client reported served once, `allset` the listening descriptor and the live clients |
| `SelectServer.Server.Serve` | unpv1e3/tcpcliserv/tcpservselect01.c:35-82 | the run turn by turn with everything it served; it ends only when it gives up |

## Left out

- AddrInfo.GaClone: does not model failing memory allocation, so the EAI_MEMORY returns of the getaddrinfo functions are absent.
- AddrInfo.Results.Append: requires an Internet address; the AF_LOCAL branch, which copies a path name and may unlink it, is reached from `ga_unix` only, never together with the service passes.
- AddrInfo.GaServ: takes the number parsed by `atoi` and the results of the two `getservbyname` lookups as inputs.
- Rtt.RttInfo.Stop: computes on `real`, so the rounding of `float` is not modelled.
- UdpWrite.UdpWrite: models the branch for systems whose `ip_len` is in network byte order and the one that computes the checksum; the layout of `struct udpiphdr` comes from a system header that is not part of this model's sources and is taken as 9 unused bytes, protocol, length, addresses and UDP header.
- DgSendRecv.SuccessIsCurrent: assumes at most 2^32 calls; beyond that a very old echo can carry the current number, and only `DgSendRecv.ReplyIsAnEcho` holds.
- ThreadQueue.ServiceIsFinite: counts the steps between arrivals and spurious wakeups; fairness of the scheduler is not modelled.
- ReadLine.Reader.constructor: ties the static buffer to one descriptor; the original shares it among all descriptors a program reads from, which mixes their bytes.
- SelectServer.Server.Serve: does not model a failing `read` or `write` on a client (the wrappers end the program) nor partial writes.
- Web.Fetcher.Run: what is written and read on the connections is not modelled, only end of file; a failed connect counts as established, as in the code, and the first page fetched by `home_page` is absent.
- StrCli.Copier.OneTurn: `select` itself is not modelled; a descriptor reported although nothing can be read or written answers EWOULDBLOCK.
- Name resolution, `/etc/services`, socket options and socket setup, argument handling and printing: calls into the system with no invariant of their own.
- Multicast, routing sockets, PF_KEY, STREAMS, pcap, libnet and SCTP programs: mostly foreign calls and structures.
- The race between `alarm` and `sigsetjmp`: a timeout is a step that is possible while the client waits.
- `unpv1e3/threads/web03.c` and `unpv1e3/threads/web02.c`: they write flags without the lock, so that the scheduling claims made here for `web.c` are not theirs.
- `unpv1e3/server/readline.c` and `unpv1e3/server/readline_r.c`: variants whose count at end of file differs from the one modelled.
