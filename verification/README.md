# dircproxy: a model of its engines

dircproxy is an IRC proxy that keeps a user's session alive while the user is away. This
project models its stateful engines in Dafny and proves what they promise over every
input and every run. System calls, the clock and the network are inputs: how many bytes
`write` accepts, what a read delivers and when a poll happens are arbitrary.

Each engine appears twice. Classes and methods follow the C code: linked buffer nodes,
fields updated in place, `argv` permuted in its array, loops with their invariants. Each
method is proved against a specification function, and the theorems are lemmas about
those functions, usually over arbitrary sequences of events. The laws (`GetoptLaws`,
`SessionLaws` and so on) say what each operation means for what comes of it: what leaves a
socket, what a command line reports, which session has the client, which server is tried.

| module | what it models |
|---|---|
| `NetBuffers`, `NetSocket` | the linked socket buffers, the throttle and the write loop of src/net.c |
| `NetProgress` | how much leaves a socket in each poll, and when everything has |
| `NetStream` | conservation, order and atomicity of everything sent through a socket |
| `NetFraming` | lines cut out of a byte stream, independent of how it was read |
| `DccRelay`, `DccProxies` | the DCC SEND relay: its events, and the objects that handle them |
| `DccLaws` | what each delivery of data moves, to the byte |
| `DccFlow`, `DccWindow`, `DccCapture` | its safety, flow control and draining; flow control past 2^32 bytes; the limit of a capture |
| `Getopt`, `GetoptLaws` | option scanning with permutation of `argv`; what each form of option means |
| `IrcString`, `Match`, `MatchRuns` | IRC case folding; wildcard matching; masks with several runs of stars |
| `Channels`, `ChannelTrip`, `ChannelLaws` | the channel list through detach and attach; what each event means for it |
| `Session`, `SessionLaws`, `SessionCode` | who owns classes and client sockets; what becomes of a client from its log in to its next; reload |
| `Reconnect`, `ReconnectLaws` | cycling through servers, limits, jumps; after a failure or a lost connection |
| `NickGenerator` | the nickname generator |
| `Ctcp`, `Wire` | in-place CTCP stripping; the message parser |
| `Log`, `LogFlags`, `Recall` | the rolling log, event names, records and recall |
| `Numbers` | integer printing |
| `Basics`, `Seqs` | shared types and texts; facts about sequences |

## Where the code does something else

These are properties one might expect that the code does not have. Each is stated as the
exact condition under which it holds; where it is not plain that the condition can fail,
a run or an input on which it does is given.

- An empty line or an empty block of data stops the output of its socket:
  `NetProgress.StuckIff` says when all that is queued can leave, and after
  `NetProgress.EmptyBlocks` nothing more does, urgent lines apart. While nothing empty is
  sent everything can: `NetProgress.EverythingCanLeave`.
- An urgent line is not protected from another urgent line: urgent nodes carry no line
  length. `NetStream.OthersAtomicIff` says exactly when a line is torn, and
  `NetStream.UrgentTorn` is a run in which one is.
- `strmatch` accepts when the string runs out at any star: `Match.AgreesIffStarsTrail`
  names the masks that behave as globs on every string.
- `strmatch` refuses some strings a glob accepts when stars are adjacent.
  `Match.CodeIsRuns` says what it decides on every string and mask, `Match.StarRunLaw`
  what each further star of a run costs, `Match.OneRunAccepts` which strings a mask with
  one run lets through and `Match.OneRunComplete` for which of these masks nothing is
  lost. `Match.AdjacentStarsRefuse` is an input on which a string is. With several runs a
  later star can rescue a string: `MatchRuns.RunsComplete` gives masks of any number of
  runs that lose nothing.
- A CTCP body can be overwritten before it is copied. `Ctcp.VerbatimIff` says for every
  entry of every message whether it is intact; `Ctcp.SecondBodyTorn` is a message in
  which the second is not.
- A record whose text is empty or all blanks cannot be recalled:
  `Recall.RecordRoundTrip`.
- Channels already left before a detach do not come back unchanged:
  `ChannelTrip.RoundTripIff`.
- A JUMP while a reconnect is waiting and no socket exists does not reach its server,
  unless there is only one: `Reconnect.JumpReachesIff`; `Reconnect.JumpMisses` is a run
  from a new session.
- Flow control is lost when the 32-bit counters wrap: `DccWindow.FlowControlIff` says how
  long a stream may be, and in the runs of `DccWindow.NothingHoldsBack` any number of
  blocks goes out without an acknowledgement.
- After a reload only the first class with a password keeps its session:
  `Session.ReloadOutcome`.
- The limit of a capture is taken in 32 bits: `DccCapture.LimitAsked` says when it is the
  one asked for and when there is none. It is compared with a 32-bit counter:
  `DccCapture.CaptureBoundedIff` and `DccCapture.AskedBoundedIff` say for which sizes of a
  read it holds of the bytes written, and `DccCapture.GrowingCaptures` gives the runs that
  pass it.
- A prefix with a `!` and no `@` after it loses what follows the `!`:
  `Wire.SourceIsEither`.

## Model

| member | source | states |
|---|---|---|
| `NetBuffers.BufferQueue.Buffer` | src/net.c:426-512 | ordinary data joins the end of the linked chain: packed lines get their own node with its line length, raw data extends a last node that holds no line; every earlier node is untouched |
| `NetBuffers.BufferQueue.BufferUrgent` | src/net.c:434-451 | urgent data goes in front of the chain, but behind a first node whose line is part-written; the chain is otherwise the same |
| `NetBuffers.BufferQueue.Unbuffer` | src/net.c:593-639 | taking n bytes off the first node delivers exactly those bytes and leaves the rest in order; asking for more than the node holds changes nothing |
| `NetBuffers.BufferQueue.Discard` | src/net.c:230-239 | every node of the chain is freed: with its pointers cleared the queue is empty and can be used again |
| `NetBuffers.AppendFlatten` | src/net.c:453-509 | whatever the mode, buffering appends exactly the new bytes to the bytes queued |
| `NetBuffers.UrgentFlatten` | src/net.c:434-451 | urgent buffering inserts exactly the new bytes, at the head or right after the first node |
| `NetBuffers.RawAppendKeepsOne` | src/net.c:453-509 | a queue that only ever gets raw data never holds more than one node |
| `NetSocket.SockInfo.SetThrottle` | src/net.c:348-362 | from any state, a first period of the new throttle begins now with nothing counted against it, and what was written before does not count; the input is untouched |
| `NetSocket.SockInfo.SendLine` | src/net.c:365-386 | the line is queued as one packed line; input and counters are untouched |
| `NetSocket.SockInfo.SendUrgent` | src/net.c:389-410 | the line is queued as urgent |
| `NetSocket.SockInfo.QueueRaw` | src/net.c:413-423 | the bytes are queued without line structure |
| `NetSocket.SockInfo.BeginPoll` | src/net.c:699-704 | once a period has passed the counter starts again at 0 from now, so that the whole of the next period can go, and before that nothing changes; whatever fitted the periods begun so far still fits them, or one more |
| `NetSocket.SockInfo.WriteOnce` | src/net.c:884-915 | one turn of the write loop passes on at most what the block size, the throttle and the socket allow, and stops otherwise |
| `NetSocket.SockInfo.WriteOut` | src/net.c:881-917 | the write loop, for any sizes `write` accepts, does what the specified loop does to queue, written bytes and counter |
| `NetSocket.ThrottleBound` | src/net.c:348-362 | over any run without a new throttle, polled at any times up to t: the counter never exceeds B and at most B * ((t - t0) / P + 1) bytes were written since t0 |
| `NetSocket.SockInfo.ReadIn` | src/net.c:834-841 | the input queue gains exactly the blocks read, in order, and stays one node |
| `NetSocket.SockInfo.GetsLine` | src/net.c:515-560 | returns what splitting the buffered bytes at the first delimiters returns and leaves the rest |
| `NetSocket.SockInfo.ReadBytes` | src/net.c:563-590 | 0 asks for the amount; a length that is there is delivered and removed; a larger one delivers nothing |
| `NetSocket.Sockets.Expunge` | src/net.c:305-327 | the list keeps exactly the sockets that are not spent, in order |
| `NetSocket.StayingIff` | src/net.c:305-327 | a socket goes if and only if it is closed and, when it is an ordinary one, all its output has been written |
| `NetSocket.StayingInOrder` | src/net.c:305-327 | the sockets that stay keep their order |
| `NetSocket.SockInfo.PerformAll` | src/net.c:348-423 | any sequence of sends, queues, urgent sends, polls and partial writes on the object ends in the state the transition relation gives |
| `NetSocket.SockInfo.PerformThrottled` | src/net.c:881-917 | the throttle bound on the object: with B bytes each P seconds set at t0, after any such sequence polled up to t the counter is at most B and at most B * ((t - t0) / P + 1) bytes were written |
| `NetProgress.FlushExact` | src/net.c:881-917 | when the writes take all they are offered, exactly min(B - counter, n) of the n bytes that can leave do, in order, all of them without a throttle, and the counter grows by that; the others still can |
| `NetProgress.PollExact` | src/net.c:699-704 | one poll: the same with the counter at 0 if the last period began at least a period ago, and as it was otherwise |
| `NetProgress.PollWrites` | src/net.c:699-704 | progress however little is accepted: in a poll that begins a period, a first write that takes anything writes something |
| `NetProgress.ThrottleThenFlush` | src/net.c:348-362 | after a new throttle of B bytes min(B, n) of the n bytes that can leave go at once, and its first period began then |
| `NetProgress.DrainsByPeriods` | src/net.c:699-704 | polled k times, each time a period after the last, a throttled socket has sent exactly min(k * B, n) of the n bytes that could leave |
| `NetProgress.EverythingGoesOut` | src/net.c:881-917 | from a new socket on which nothing empty was sent, after any run: throttled and polled once a period, all that is queued has been written, in order, after as many polls as it takes at B bytes each |
| `NetProgress.EverythingCanLeave` | src/net.c:453-509 | over every run in which nothing empty is sent no node is empty and all that is queued can leave |
| `NetProgress.StuckIff` | src/net.c:884-909 | all that is queued can leave if and only if no data waits behind an empty node |
| `NetProgress.EmptyBlocks` | src/net.c:902-909 | once an empty node is first in the queue no ordinary or raw byte leaves any more, whatever is sent and polled |
| `NetProgress.PollOnce` | src/net.c:881-917 | the output part of a poll on the object: the reset and the write loop together send the share of the period, and no more |
| `NetFraming.GetsScan` | src/net.c:515-560 | the code's scan of one buffer agrees with an independent character-by-character line automaton |
| `NetFraming.FramingIndependent` | src/net.c:515-560 | for every interleaving of reads and `net_gets` calls: non-empty lines returned so far followed by those still in the buffer are the lines of the whole stream, however it was cut into reads |
| `NetFraming.LinesMeaning` | src/net.c:515-560 | what the lines of a stream are: the words between delimiters, empty ones left out; after a NUL nothing more is found |
| `NetStream.StreamIsReal` | src/net.c:426-512 | the bookkeeping that marks every byte with the call it came from does not change a byte of what is written and queued |
| `NetStream.EachPayloadOnce` | src/net.c:426-512 | after any run of sends, queues, urgent sends and partial writes, the bytes written followed by the queue hold the payload of each call exactly once, in its own order |
| `NetStream.OrdinaryInOrder` | src/net.c:453-509 | the payloads that are not urgent appear in the order of their calls |
| `NetStream.LinesAreAtomic` | src/net.c:434-451 | every line passed to `net_send` is contiguous in that stream, whatever is sent urgently meanwhile |
| `NetStream.OthersAtomicIff` | src/net.c:434-451 | an urgent line or a queued block is contiguous if and only if no urgent line is sent while it is part-written; if one is, the stream has it inside |
| `NetStream.UrgentTorn` | src/net.c:434-451 | the witness: an urgent line of which one byte was written when another comes goes out torn in two, with the other inside |
| `DccProxies.DccProxy.constructor` | src/dcc_net.c:57-127 | a new relay is safe from its first moment, and the limit of a capture is the one asked for exactly if that many bytes fit 32 bits |
| `DccProxies.DccProxy.Connected` | src/dcc_send.c:38-51 | from now on the sender can deliver data; nothing of the stream (passed on, then waiting) changes and the relay stays safe |
| `DccProxies.DccProxy.ConnectFailed` | src/dcc_send.c:54-70 | the relay is over and no event of the sender is possible any more |
| `DccProxies.DccProxy.Accept` | src/dcc_net.c:304-336 | the stream loses nothing; a failed accept ends the relay, otherwise no second sendee can be accepted, and once a sendee is there the first block of what waits has gone on to it; one whose socket cannot be set up gets nothing |
| `DccProxies.DccProxy.SendBuffered` | src/dcc_send.c:202-241 | the stream stays whole; one block of it, or all in a fast session, moves to the sendee unless queueing fails; a relay left by its sender ends exactly when nothing waits any more |
| `DccProxies.DccProxy.DataFromSender` | src/dcc_send.c:84-156 | the data joins the end of the stream, and the acknowledgement queued is the length of the whole stream counted from the resume position modulo 2^32 |
| `DccProxies.DccProxy.DataFromSendee` | src/dcc_send.c:108-155 | the stream stays whole, and in a simple session an acknowledgement below what was sent moves nothing |
| `DccProxies.DccProxy.ErrorFromSender` | src/dcc_send.c:159-199 | nothing more can come from the sender, the stream stays whole, and the relay lives on, as one whose sender has gone, exactly if it still owes data to a sendee |
| `DccProxies.DccProxy.ErrorFromSendee` | src/dcc_send.c:159-199 | the relay is over, and no sendee can be accepted, speak or fail any more |
| `DccProxies.DccProxy.Timeout` | src/dcc_net.c:263-301 | a relay is spared, with nothing changed, if and only if it captures from an active sender, or its sendee is active and its sender is active or has gone; any other dies with nothing else changed |
| `DccProxies.DccNet.Expunge` | src/dcc_net.c:363-385 | exactly the living relays stay, in order |
| `DccProxies.LivingExactly` | src/dcc_net.c:363-385 | each living relay is kept as often as it was there, no dead one is, and the order stays |
| `DccProxies.StreamGrows` | src/dcc_send.c:84-241 | what was passed on followed by what waits grows by exactly the data the sender delivers; no other event loses, adds or reorders a byte |
| `DccLaws.SendeeMoves` | src/dcc_send.c:113-155 | what a connected sendee says moves everything in a fast session, and in a simple one exactly one block if all that was sent is acknowledged by what it says, or by what it said before if the word is not complete; nothing else changes |
| `DccLaws.SenderMoves` | src/dcc_send.c:85-155 | data from the sender waits behind what waits, is acknowledged unless it is empty, and moves the same amount if a sendee is connected |
| `DccLaws.QueueingFails` | src/dcc_send.c:217-222 | a block that cannot be queued waits on and the sendee is cut off |
| `DccLaws.AckingFails` | src/dcc_send.c:103-108 | when the acknowledgement cannot be queued the data waits all the same, nothing is sent and the sender is cut off |
| `DccLaws.CaptureWrites` | src/dcc_send.c:134-149 | a capture writes everything it gets at once and ends exactly when its counter has reached a limit that is not 0 |
| `DccLaws.FileKept` | src/dcc_send.c:185-198 | the file of a capture is closed, and so not unlinked, exactly when its sender goes without an error |
| `DccProxies.DccProxy.PerformAll` | src/dcc_send.c:84-199 | any run of events on the object keeps every promise of a safe relay, and what was passed on followed by what waits is everything received, in order |
| `DccProxies.Relayed` | src/dcc_net.c:57-127 | a relay created and run through any events is safe, and a live capture has written less than its limit if no read can carry the counter past its wrap |
| `DccFlow.RelayIsSafe` | src/dcc_send.c:84-156 | in every reachable state: delivered bytes followed by the buffer are the bytes received in order; sent, received and resume counts agree modulo 2^32; every acknowledgement queued to the sender is the running count at its moment; a live capture is below its limit; a relay whose sender has gone and that is not dead owes data |
| `DccCapture.CaptureReallyBounded` | src/dcc_send.c:135-151 | if no single read can wrap the counter, a live limited capture has written fewer than its limit of bytes, in true bytes and not only modulo 2^32 |
| `DccCapture.CaptureBoundedIff` | src/dcc_send.c:135-151 | for reads of at most n bytes and a limit of m > 0: every live capture over every run is below m bytes if and only if n + m <= 2^32 |
| `DccCapture.AskedBoundedIff` | src/dcc_net.c:90 | the same for any bound at least the limit in force, such as the one asked for: it holds if and only if nothing is read, or a limit is in force and n + m <= 2^32 |
| `DccCapture.GrowingCaptures` | src/dcc_send.c:135-151 | the failing runs: once a read can carry the counter past its wrap, and with no limit in force, live captures of any size are reached |
| `DccCapture.LimitAsked` | src/dcc_net.c:90 | the limit in force is maxsize * 1024 if and only if that lies in 0 to 2^32 - 1, and there is none exactly if maxsize is a multiple of 4194304 |
| `DccFlow.FlowControl` | src/dcc_send.c:129-155 | in simple mode, over every run and up to 2^32 bytes, never more than one block beyond the highest acknowledgement seen is sent |
| `DccWindow.FlowControlIff` | src/dcc_send.c:129-155 | over all runs that receive at most n bytes the window holds if and only if n <= 2^32 |
| `DccWindow.NothingHoldsBack` | src/dcc_send.c:129-155 | the failing runs: once all but one block of 2^32 bytes is acknowledged, the counter is never above that acknowledgement again and m more blocks go out without another one, for every m |
| `DccFlow.NoStall` | src/dcc_send.c:73-81 | with acknowledgements never above what was sent and no queue failure, a connected sendee of a non-empty buffer always has an unacknowledged block in flight, so its next acknowledgement moves the relay on |
| `DccFlow.DrainAfterSenderLeft` | src/dcc_send.c:202-241 | after the sender left, exactly ceil(buffer / 2048) further full acknowledgements deliver everything received and then, not before, end the relay |
| `DccFlow.SenderLeavesThenDrains` | src/dcc_send.c:159-173 | a sender that leaves while data waits for a connected sendee leaves a relay that is not dead: exactly ceil(buffer / 2048) full acknowledgements later everything received is delivered and it ends |
| `Getopt.Copy` | getopt/getopt.c:205-215 | the forward copy yields the old block at the target even when the blocks overlap with the target first |
| `Getopt.SwapBlocks` | getopt/getopt.c:235-250 | `exchange`'s three copies swap two neighbouring blocks in place |
| `Getopt.Scanner.Exchange` | getopt/getopt.c:235-255 | the non-options end up behind the options, and the two indices describe their new place |
| `Getopt.FindLong` | getopt/getopt.c:452-479 | an exact long name wins over abbreviations, a single abbreviation is accepted, two are ambiguous |
| `Getopt.Scanner.TakeLong` | getopt/getopt.c:432-565 | a long option: value after `=`, or in the next element, or missing; how far `optind` moves; when it falls through to the short options |
| `Getopt.Scanner.TakeShort` | getopt/getopt.c:567-643 | a short option: bundled, or with an argument that is attached, in the next element, which is then passed over, optional or missing; `GetoptLaws` says what each of these means on the command line |
| `Getopt.Scanner.SkipNonoptions` | getopt/getopt.c:370-378 | non-options are passed over and remembered, everything else stays in place |
| `Getopt.Scanner.EndOfOptions` | getopt/getopt.c:386-397 | `--` is moved with the options and all that follows is non-option |
| `Getopt.Scanner.Advance` | getopt/getopt.c:355-429 | between calls options met so far are in front and non-options behind; at the end `argv` is name, options, non-options |
| `Getopt.Scanner.Next` | getopt/getopt.c:325-643 | each call reports exactly the next option of the original command line, or EOF with everything in place |
| `Getopt.ScanIsPartition` | getopt/getopt.c:355-409 | options with their arguments and `--` on one side, the other elements on the other, interleave to the original command line: nothing is lost, added or reordered within its kind |
| `Getopt.ParseAll` | getopt/getopt.c:325-643 | calling until EOF terminates; it reports what a left-to-right reading of the untouched command line reports, leaves `argv` as the stable partition and `optind` at the first non-option |
| `GetoptLaws.OneKind` | getopt/getopt.c:568-610 | every character is of exactly one kind for an option string: unknown, or without, with a required or with an optional argument, by the colons behind its first place |
| `GetoptLaws.BundleMeans` | getopt/getopt.c:567-595 | an element of characters without an argument reports each of them in turn, `?` for an unknown one, and is one of the options |
| `GetoptLaws.AttachedMeans` | getopt/getopt.c:597-616 | behind such characters, one that takes an argument, required or optional, takes the rest of the element |
| `GetoptLaws.FollowingMeans` | getopt/getopt.c:635-640 | a required argument that is not attached is the next element, whatever it is, and both elements are options |
| `GetoptLaws.MissingMeans` | getopt/getopt.c:617-634 | at the end of the command line it is missing: `:` or `?`, as the option string begins |
| `GetoptLaws.OptionalMeans` | getopt/getopt.c:599-607 | an optional argument that is not attached is none, and the next element is read on its own |
| `GetoptLaws.OneMeaning` | getopt/getopt.c:452-484 | every name means exactly one thing in a table of long options: the first entry of just that name, or the only one it abbreviates, or one of several, or none |
| `GetoptLaws.ValueMeans` | getopt/getopt.c:486-514 | a value after `=` is reported with the option, as `?` if it takes none, with 0 for one that sets a variable |
| `GetoptLaws.NextMeans` | getopt/getopt.c:515-536 | the next element, whatever it is, is the value a long option requires, and both elements are options |
| `GetoptLaws.LongMissingMeans` | getopt/getopt.c:515-527 | at the end of the command line that value is missing: `:` or `?`, as the option string begins |
| `GetoptLaws.AloneMeans` | getopt/getopt.c:486-536 | a long option that requires no value takes none from the next element |
| `GetoptLaws.UnknownMeans` | getopt/getopt.c:476-562 | a name that abbreviates several options or none is reported as `?` and its element passed over |
| `GetoptLaws.OthersMean` | getopt/getopt.c:370-397 | an element without a dash, or of one dash, is no option, and after `--` none is |
| `IrcString.IrcStrCaseCmp` | src/irc_string.c:83-93 | zero exactly for names that are equal under IRC case folding |
| `IrcString.SameLetter` | src/irc_string.c:34-42 | which characters are the same to it: equal ones, the two cases of a letter, and backslash and bar |
| `Match.StrMatch` | src/match.c:33-58 | the loop and its recursion decide the same as its recursive specification, and terminate |
| `Match.CodeIsVariant` | src/match.c:33-58 | without adjacent stars the code decides exactly the glob relation in which a string that runs out at a star is accepted |
| `Match.Complete` | src/match.c:33-58 | without adjacent stars everything a glob accepts is accepted |
| `Match.CodeIsRuns` | src/match.c:33-58 | for every string and mask, stars adjacent or not, what the code decides in terms of where the part after each star may begin |
| `Match.StarRunLaw` | src/match.c:37-40 | a run of k stars accepts if the string is shorter than k; otherwise all but the last star of it only skip forward, one character at a time, and the last one does what a single star does |
| `Match.OneRunAccepts` | src/match.c:33-58 | which of the strings a glob accepts pass a mask with one run of k stars: those that end within the run, those with nothing after the run, and those long enough for what the run skips and what follows |
| `Match.OneRunComplete` | src/match.c:33-58 | such a mask refuses nothing a glob accepts if and only if the run is one star or at most one character follows it |
| `MatchRuns.RunsComplete` | src/match.c:33-58 | a mask with any number of runs refuses nothing a glob accepts if the runs before the first longer one are single stars, and what follows that one up to the next star covers as many characters at the end of the mask and is a single character or leaves room for what the run skips, or if nothing follows it |
| `MatchRuns.RescuedAtTheEnd` | src/match.c:57 | an instance that a mask with one run could not be: "**a*a" refuses nothing |
| `Match.AdjacentStarsRefuse` | src/match.c:37-40 | the witness: two adjacent stars refuse a string the glob accepts |
| `Match.AgreesIffStarsTrail` | src/match.c:57 | a mask behaves as a glob on every string if and only if its stars are all at its end |
| `Channels.ChannelList.Fetch` | src/irc_net.c:221-233 | finds the first channel of that name up to IRC case |
| `Channels.ChannelList.Add` | src/irc_net.c:236-270 | a new name goes to the end as a channel the session is on: a detach would leave it, after the others, and a new server get a JOIN without a key for it; a known name changes nothing |
| `Channels.ChannelList.Delete` | src/irc_net.c:273-299 | takes out the channel of that name, keeping the order of the rest, and says whether there was one |
| `Channels.ChannelList.Handle` | src/irc_server.c:963-1002 | what JOIN, PART, KICK, 471 and 403 and the initial channels do to the list, with and without a client |
| `Channels.ChannelList.Removed` | src/irc_server.c:1073-1086 | being removed while detached keeps the channel and asks for it again; while attached it is forgotten |
| `Channels.ChannelList.Leave` | src/irc_client.c:226-250 | exactly the channels the session is on are parted, in order, and marked or dropped |
| `Channels.ChannelList.Rejoin` | src/irc_client.c:792-808 | exactly the channels left are asked for on attach, with their keys; the same loop with the other flag restores the list on 004 (src/irc_server.c:541-556) |
| `ChannelTrip.RunDistinct` | src/irc_net.c:236-270 | over every run of these events no two channels of a session have the same name up to IRC case |
| `ChannelTrip.LosesExactly` | src/irc_server.c:1037-1051 | a channel disappears if and only if the server says the session left it without having marked it as left, or a client is attached and it was removed from it or cannot be on it |
| `ChannelTrip.EchoesOnTheWay` | src/irc_server.c:963-984 | while PART and JOIN echoes arrive in any order across channels, each channel is as marked until its own JOIN comes |
| `ChannelTrip.TripReturns` | src/irc_client.c:792-808 | after detach, attach and all echoes the list has the same channels in the same places, and every channel not left before is exactly as it was |
| `ChannelTrip.RoundTripIff` | src/irc_client.c:226-250 | the list is restored exactly if and only if no channel had been left before the detach |
| `ChannelTrip.SentMatch` | src/irc_client.c:792-808 | the k-th PART on detach and the k-th JOIN on attach are for the k-th channel the session is on, the JOIN with its key |
| `ChannelLaws.OthersUntouched` | src/irc_server.c:963-1002 | an event leaves every channel of another name exactly as it is, and in its order |
| `ChannelLaws.JoinAdds` | src/irc_net.c:241-260 | an ordinary JOIN adds one channel to those a detach parts, an attach after it asks for and a new server is sent, at their end and without a key |
| `ChannelLaws.RemovedComesBack` | src/irc_server.c:1073-1081 | a channel the session was kicked off or kept out of while detached is not parted at a detach, the others still are, and its next JOIN restores the list exactly |
| `ChannelLaws.GoneIsAskedFor` | src/irc_server.c:725-760 | one it was kept out of for good is not parted either but asked for at the next attach, with its key, and its JOIN restores the list if the session was on it |
| `ChannelLaws.TakenOut` | src/irc_server.c:1037-1051 | with a client attached, or by a PART that does not answer one of the session, just that channel goes and the others stay in order |
| `ChannelLaws.InitialIsJoined` | src/irc_client.c:891-912 | a new initial channel is not parted but joined with its key when the server is there, and its JOIN makes it like any other |
| `ChannelLaws.InitialIsKnown` | src/irc_client.c:901-907 | one that is in the list already is joined with the new key if there is one, otherwise with its own |
| `ChannelLaws.LeavesOnce` | src/irc_client.c:226-250 | after a detach nothing is left to part; without rejoining exactly the channels the session was on are forgotten |
| `SessionCode.IrcProxy.Close` | src/irc_client.c:1167-1188 | the client is gone; a live session with a class, a nickname and a user lives on in its class and any other is dead |
| `SessionCode.IrcProxy.Drop` | src/irc_client.c:1801-1810 | the session is dead and has neither class, client nor socket |
| `SessionCode.IrcProxy.Detach` | src/irc_client.c:156-327 | a live session with a class, a nickname and a user that is not to die on close loses only its client and lives on in its class; any other is dead and has neither client nor socket |
| `SessionCode.IrcProxy.GiveUp` | src/irc_server.c:94-120 | giving up on servers ends the session, with or without a client, and takes its class and its client away |
| `SessionCode.IrcProxy.TimeOut` | src/irc_client.c:1427-1447 | a time-out closes the client unless what it waited for has happened |
| `SessionCode.IrcProxy.LoseNick` | src/irc_server.c:679-693 | a rejected nickname is lost only while a client is there to choose another |
| `SessionCode.IrcNet.Fetch` | src/irc_net.c:207-218 | the first live session of a class |
| `SessionCode.IrcNet.Accept` | src/irc_net.c:183-204 | a new session joins at the front of the list and the others are unchanged |
| `SessionCode.IrcNet.MayUse` | src/irc_client.c:701-724 | the class accepts the password (as it is, or as `crypt` turns it into the stored one) and, if there is a mask list, some mask matches address or host |
| `SessionCode.IrcNet.Authenticate` | src/irc_client.c:696-931 | who owns what after an authentication: refuse, start, attach or collide, over the whole list of sessions |
| `SessionCode.IrcNet.Consider` | src/irc_client.c:655-666 | authentication happens once password, nickname and user are there, and the password has to be sent anew |
| `SessionCode.IrcNet.Expunge` | src/irc_net.c:439-464 | exactly the live sessions stay, in order |
| `SessionCode.IrcNet.Reload` | src/main.c:452-495 | the two nested loops of a successful reload reach the closed form: moved to the first new class with the password, or dropped |
| `SessionCode.IrcNet.Perform` | src/irc_client.c:330-693 | each event changes the objects exactly as the transition relation says |
| `SessionCode.IrcNet.PerformAll` | src/irc_net.c:183-204 | any run of events keeps ownership on the objects themselves |
| `Session.StepOwned` | src/irc_client.c:736-849 | every event keeps ownership: at most one live session a class and a client socket, logged in exactly with class and client, classes all configured |
| `Session.RunOwned` | src/irc_net.c:207-218 | ownership over every run of accept, log in, detach, kill, give-up, time-out, expunge and reload |
| `Session.LoginOutcome` | src/irc_client.c:736-853 | a log in is refused with nothing else changed, or the client's socket belongs to the only session of its class - the old one unless that one did not survive losing its client |
| `SessionLaws.DetachOutcome` | src/irc_client.c:156-327 | when a client goes away its session lives on in its class with everything but the client, unless it is to die on close; no other session is touched |
| `SessionLaws.ComesBack` | src/irc_client.c:759-775 | a detach followed by a whole log in to the same class, from any socket and with the three messages in any order, ends in the same session exactly as it was left, with the new socket and address |
| `SessionLaws.LogInAttaches` | src/irc_client.c:736-848 | a whole log in, from the accept to the last message, to a class whose session has no client or gives way: the session has the new client and is otherwise unchanged, the newcomer is over, all others are as they were |
| `SessionLaws.LogInBegins` | src/irc_client.c:850-858 | a whole log in to a class nobody holds begins its session with that client, to die on close if the class says so |
| `SessionLaws.LogInCollides` | src/irc_client.c:751-756 | a whole log in to a class whose session keeps its client is refused and changes no session |
| `SessionLaws.LogInReplaces` | src/irc_client.c:740-750 | a session that cannot go on without its client ends when it has to give way, and the newcomer begins another in its class |
| `SessionLaws.LogInRefused` | src/irc_client.c:927-930 | a client no class lets in is sent away and changes no session |
| `SessionLaws.LoggedInAlready` | src/irc_client.c:398-406 | PASS and USER of a client that is logged in change nothing |
| `SessionLaws.DropOutcome` | src/irc_client.c:1801-1810 | a session that is dropped, or gives up on its servers, is dead and has neither class nor client |
| `SessionLaws.TimeOutOutcome` | src/irc_client.c:1427-1447 | a client that is in time is left alone; one that is not is sent away, and its session lives on if it has a class, a nickname and a user |
| `SessionLaws.LostNickOutcome` | src/irc_server.c:679-693 | a session that lost its nickname while its client was there dies with the client; without a client nothing is lost |
| `SessionLaws.WhoMayUse` | src/irc_client.c:701-724 | the password always has to fit; with a mask list a match of the address is enough, and so is one of the host, and nothing else is |
| `SessionLaws.AliveExactly` | src/irc_net.c:439-464 | an expunge removes every dead session and no other, and keeps the order |
| `Session.ReloadOutcome` | src/main.c:452-495 | a live session with a class survives a reload if and only if its class was the first configured with its password and the password is still configured; it then has a new class with the same password and is otherwise unchanged |
| `Session.LoopsReload` | src/main.c:452-495 | looking at the new classes one by one and then killing along the old ones gives that closed form |
| `Session.MoveStep` | src/main.c:453-473 | one turn of the matching loop moves at most one session, the one it should |
| `Session.KillStep` | src/main.c:476-492 | one turn of the killing loop drops at most one session, the one it should |
| `Reconnect.ServerLink.Connect` | src/irc_server.c:128-160 | one server of the list is tried, and nothing that was tried is forgotten, exactly if no reconnect is waiting |
| `Reconnect.ServerLink.OnTimer` | src/irc_server.c:80-125 | the next server cyclically, a new round at the wrap; a session that gives up here has reached the limit that applies and tries nothing more |
| `Reconnect.ServerLink.ConnectAgain` | src/irc_server.c:1628-1651 | the next server is tried at once exactly if there was a socket or no reconnect is waiting, and the session has as many rounds before it as a new one would have from that server |
| `Reconnect.ServerLink.JumpTo` | src/irc_client.c:1721-1750 | the chosen server is next and, if it was added, the list is longer by one; it is tried at once exactly if there was a socket or no reconnect is waiting; otherwise the reconnect that is waiting will go to the one after it |
| `Reconnect.ServerLink.Handle` | src/irc_server.c:406-424 | whatever fails or is lost, the timer that retries is set and nothing is tried yet; a welcome leaves maxAttempts * n - next rounds; the next server and all tried ones stay in the list, which never shrinks |
| `Reconnect.ServerLink.PerformAll` | src/irc_server.c:80-125 | any run of events on the object ends in the state the transition relation gives, with the next server and all tried ones in the list |
| `Reconnect.RunInList` | src/irc_server.c:85-89 | over every run the next server and every server tried are in the list |
| `Reconnect.JumpReaches` | src/irc_client.c:1746-1751 | after any run from a new session and with any continuation without another jump: with a socket, or no reconnect waiting, the chosen server is tried next; otherwise the next server tried is the one after it, cyclically |
| `Reconnect.JumpReachesIff` | src/irc_client.c:1746-1751 | so the next server tried is the chosen one if and only if a socket exists, no reconnect is waiting, or the class has one server |
| `Reconnect.JumpMisses` | src/irc_client.c:1746-1751 | the witness: of three servers the first fails at the look-up, a jump to the second follows, and the timer tries the third |
| `Reconnect.RoundsSurvived` | src/irc_server.c:80-125 | however the attempts fail, after r failing rounds the server is r further on modulo n, the rounds are counted by the wraps, and the servers tried are the cycle |
| `Reconnect.NeverGivesUp` | src/irc_server.c:94-124 | without a limit the session lives on and the index is (j + r) mod n |
| `Reconnect.GivesUpExactly` | src/irc_server.c:94-120 | with a limit in force and from any server the session gives up at exactly the round that uses up (limit - attempts) * n - j |
| `Reconnect.InitialAttempts` | src/irc_server.c:107-120 | a new session that is allowed k initial rounds tries k * n times, k times each server, and then dies |
| `ReconnectLaws.FailureRetries` | src/irc_server.c:80-125 | after a failed look-up, a failed connection or a lost one the timer can go off, and when it does the session tries exactly the next server of the cycle, or is dead because one of the two limits is reached |
| `ReconnectLaws.OtherEvents` | src/irc_server.c:128-160 | a start tries the next server unless a reconnect is waiting; a socket only makes every fate of a connection possible; a welcome only renews the budget |
| `ReconnectLaws.WelcomedThenLost` | src/irc_server.c:1593-1609 | a session that was welcomed by server j and loses it, with every attempt failing after that: it goes on for ever without a limit on attempts, otherwise for exactly maxAttempts * n - j rounds, and tries the servers after j in order |
| `ReconnectLaws.LimitIs` | src/irc_server.c:94-110 | the one limit of the model is reached exactly when one of the two tests succeeds, the second only before a server was seen |
| `ReconnectLaws.LoseThenFail` | src/irc_server.c:1593-1609 | the same as WelcomedThenLost on the object |
| `Reconnect.AllFail` | src/irc_server.c:80-125 | the same on the object: a session whose attempts all fail is dead exactly after k * n of them, having tried each server k times |
| `NickGenerator.GenerateNick` | src/irc_client.c:1002-1039 | the in-place edit of the character buffer gives the next nickname |
| `NickGenerator.StepRaises` | src/irc_client.c:1002-1039 | each step but the fallback adds exactly one to the sum of ranks, and a character only while short |
| `NickGenerator.StepChangesOne` | src/irc_client.c:1002-1039 | in a full nickname only the last character that is not yet `_` changes, to the one of next rank; a shorter one is kept and gets one character at its end |
| `NickGenerator.FallbackAfter` | src/irc_client.c:1002-1039 | from every nickname the fallback comes after a computable number of steps and no nickname repeats before |
| `NickGenerator.PeriodOfFallback` | src/irc_client.c:1002-1039 | from the fallback nickname the sequence has period exactly 109 |
| `Ctcp.StripCtcp` | src/irc_prot.c:258-307 | the in-place pass over the copied text leaves the text without its closed pairs and lists the bodies that were cut |
| `Ctcp.VerbatimIff` | src/irc_prot.c:265-300 | the k-th entry listed for a message is its k-th non-empty body if and only if nothing was removed before that body, its length is at most what was removed, or it repeats at that distance |
| `Ctcp.EntryIs` | src/irc_prot.c:265-300 | the k-th entry is the k-th non-empty body as it reads once the text has moved by what was removed before it |
| `Ctcp.EntriesFromBodies` | src/irc_prot.c:258-307 | the entries a message lists depend on its closed pairs alone, in order |
| `Ctcp.SecondBodyTorn` | src/irc_prot.c:265-300 | the witness: of the bodies "a" and "bcdef" the second is listed as "efdef" |
| `Ctcp.EntriesShape` | src/irc_prot.c:258-307 | one entry for each non-empty pair, in order, of the right length |
| `Ctcp.OnlyPairsGo` | src/irc_prot.c:258-307 | exactly the pairs are taken out, and an unpaired mark is kept |
| `Ctcp.StripMeaning` | src/irc_prot.c:258-307 | of plain text, a closed pair and a rest, the text stays, the body is cut out and the rest is stripped in the same way; with one mark at most nothing changes |
| `Ctcp.StripIdempotent` | src/irc_prot.c:258-307 | stripping what is left changes nothing |
| `Wire.ParseMsg` | src/irc_prot.c:41-98 | source, command, parameters and parameter starts of a message, or failure when there is no command |
| `Wire.ParsePrefix` | src/irc_prot.c:118-158 | name, user and host of a prefix, or its name alone |
| `Wire.SourceIsUser` | src/irc_prot.c:118-158 | a prefix is a user's if and only if it reads name!user@host with no `!` in the name and no `@` in the user, and then in one way |
| `Wire.SourceIsEither` | src/irc_prot.c:118-158 | any other prefix has the name before its first `!`, if there is one, and what follows it is dropped |
| `Wire.CountFrom` | src/irc_prot.c:161-177 | the number of parameters from a position |
| `Wire.GetFrom` | src/irc_prot.c:180-210 | fills exactly the slots that were counted, each with its parameter and where it starts |
| `Wire.SkipSpaces` | src/irc_prot.c:213-221 | at most one space is skipped, as section 2.3.1 of RFC 2812 has it, so that two spaces in a row hold an empty parameter |
| `Wire.StartsPointAtParams` | src/irc_prot.c:180-210 | every parameter start is a place in the message where that parameter begins |
| `Wire.RoundTrip` | src/irc_prot.c:41-98 | rendering prefix, command, middle parameters and a final colon parameter (section 2.3.1 of RFC 2812) and parsing it gives the same command and parameters and the parts of that prefix |
| `Wire.RoundTripPlain` | src/irc_prot.c:41-98 | a message whose parameters are all plain words, or that has none, is parsed into just these |
| `Wire.NoCommandIff` | src/irc_prot.c:47-74 | exactly an empty message, and a prefix with nothing after it, have no command |
| `Wire.RenderParsed` | src/irc_prot.c:41-98 | parsing a message that has a colon parameter and rendering the parts gives the message back |
| `Log.LogFile.LogRead` | src/irc_log.c:463-496 | a line of any length comes back whole from 511-byte pieces, without its trailing blanks; text without a newline is not a line |
| `Log.DropBlanks` | src/irc_log.c:487-491 | the loop that takes the blanks off the end of a line |
| `Log.TrimIs` | src/irc_log.c:487-491 | exactly the spaces, tabs, carriage returns and newlines at the end go |
| `Log.LogFile.EatLines` | src/irc_log.c:553-557 | the oldest lines are passed over until there is room for one more |
| `Log.LogFile.CopyRest` | src/irc_log.c:559-563 | the remaining lines are copied without trailing blanks |
| `Log.LogFile.Write` | src/irc_log.c:522-578 | the file holds the rolled lines and `nlines` is their number, never above the limit |
| `Log.LogIsSuffix` | src/irc_log.c:522-578 | after any writes to an open log with limit m it holds exactly the last min(m, k) messages in order, all k without a limit, the newest verbatim and the older ones up to trailing blanks |
| `Recall.SplitLine` | src/irc_log.c:895-949 | a line splits at its first four spaces, and not at all without them |
| `Recall.RecordRoundTrip` | src/irc_log.c:669-670 | a record with a known event and space-free names is recovered field for field if and only if something besides blanks is in its text |
| `Recall.RecallLines` | src/irc_log.c:828-1019 | what is replayed: start lines skipped, then lines until enough records have been sent, unreadable or filtered ones not counting |
| `Recall.TakeSnoc` | src/irc_log.c:864-1009 | each line in turn is sent if it is a record that passes and fewer than enough were sent before it |
| `Recall.FilterMeans` | src/irc_log.c:973-991 | a filter lets through what a nickname said, up to IRC case and from any host, and everything nobody said |
| `Recall.AutoRecall` | src/irc_log.c:774-803 | the window automatic recall asks for, with its setting read as unsigned |
| `Recall.ManualRecall` | src/irc_log.c:806-825 | the window manual recall asks for |
| `Recall.AutoRecallWindow` | src/irc_log.c:774-803 | without a filter the last min(recall, nlines) records, none for 0 and all for any negative setting |
| `Recall.ManualRecallWindow` | src/irc_log.c:806-825 | for every start and number of lines: without a filter lines start to min(start + lines, nlines), the last ones without a start, all for -1, as many as there are for any other negative number, and nothing from any other negative start |
| `Recall.WrittenIsRecalled` | src/irc_log.c:652-671 | for records that are one line each and readable: the lines left by writing them, recalled with any setting, are exactly the last of them that the log may hold and the setting asks for, without trailing blanks |
| `Recall.WriteThenRecall` | src/irc_log.c:774-803 | the same on the log file: an empty log of any limit that is written to and then recalled sends exactly those records |
| `LogFlags.IrclogStrToFlag` | src/irc_log.c:1025-1035 | the value of the first table name equal in any case, or none |
| `LogFlags.IrclogFlagToStr` | src/irc_log.c:1042-1052 | the name of the first table entry with that value, or the empty string |
| `LogFlags.FlagRoundTrip` | src/irc_log.c:111-127 | a known event has a one-word name, and that name in any case reads back as it |
| `LogFlags.UnknownName` | src/irc_log.c:1025-1035 | a text reads as no event if and only if it is no event's name in any case |
| `LogFlags.ValueIsBit` | src/irc_log.c:111-127 | each event is one bit of its own, in the order of the table |
| `Numbers.DigitLoop` | src/sprintf.c:133-153 | the digits of the number, back to front |
| `Numbers.Reverse` | src/sprintf.c:209-219 | the buffer is turned round in place |
| `Numbers.MakeNum` | src/sprintf.c:104-251 | the layout the caller asked for, or nothing for a base outside 2 to 36 or a negative size |
| `Numbers.FiguresReadBack` | src/sprintf.c:104-251 | the figures, read in the base, are the absolute value of a number that is to have a sign and the 64-bit unsigned value of any other; there are max(digits, mindigits) of them |
| `Numbers.LayoutHolds` | src/sprintf.c:104-251 | the sign is `-` for a signed negative and otherwise what was asked for, sign and figures are in their places with nothing but the pad character before them, and the length is max(width, figures + sign) |

## Left out

- Real sockets, `poll`, processes, DNS children, signals, user switching and `crypt`: their
  results are parameters of the operations, or not modelled.
- `malloc` failure and ownership of freed memory.
- The read-error path of `net_poll` that frees the output queue (src/net.c:854-870), and
  `net_closeall`.
- src/cfgfile.c: a reload takes the list of new classes as its input.
- src/timers.c: timers are events that may happen while they are set.
- src/dcc_chat.c, src/dns.c, help, MOTD and status texts, CTCP replies, DCC RESUME, user
  log copies and log programs.
- Recall output formatting: time stamps and the text of the lines sent to the client; the
  model replays the records.
- Recall.RecallLines: covers a log that is open; one reopened by name is not modelled.
- Recall.RecordRoundTrip: the time is printed from a value that fits an unsigned long,
  and reading it does not model blanks and signs before a number, which cannot occur.
- Session.RunOwned: leaves out the bit that records that the welcome was sent, and keeps
  nicknames abstract, because ownership does not depend on either.
- SessionCode.IrcProxy.Detach: ownership only; the quit or part messages, modes, the away
  message and the detached nickname, logs and the notice are left out. The channels are
  `Channels.ChannelList.Leave`.
- SessionCode.IrcNet.Authenticate: ownership only; the nickname, the welcome, modes, the
  away message and recall on attach are left out. The channels are
  `Channels.ChannelList.Rejoin`.
- Channels.ChannelList.Handle: does not model MODE changes of a channel's key and the
  channel logs.
- Reconnect.ServerLink.Handle: the look-up and the connection attempt are events of their
  own; passwords and local addresses are not modelled.
- Wire.ParsePrefix: leaves out the full name put together from the parts.
- Getopt.Scanner.Next: PERMUTE ordering only, and without the messages on stderr.
- Numbers.MakeNum: for a 64-bit `long`; the rest of src/sprintf.c is not modelled.
- The linked lists of channels, sessions, sockets and relays are fields of sequence type;
  only the socket buffers are linked nodes.
