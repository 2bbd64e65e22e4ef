# Gust, verified

Gust is a TCP and UDP port forwarder with SOCKS5 chaining and an in-kernel NAT mode. This project models
the parts of it whose correctness shows only over whole runs or whole texts, and proves what they are
for. `dafny verify dfyconfig.toml` checks everything.

| files | component |
|---|---|
| `Udp`, `UdpRuns`, `UdpStale`, `UdpServer` | UDP session NAT: one receive loop and any number of reverse tasks over shared maps, clocks and counters; as a state machine and as objects on the heap |
| `Socks5`, `Socks5Client`, `Socks5Exact` | the SOCKS5 wire formats, the client, and exactly which server bytes satisfy it |
| `Chain`, `Dial`, `DialRoute` | a network of honest SOCKS5 servers and other applications, and dialling through a chain |
| `Relay` | the two racing copy loops of a TCP connection |
| `Supervisor`, `Shutdown`, `Stats` | restart and backoff, the shutdown broadcast, the counters |
| `RoundRobin` | target selection |
| `Text`, `Ip`, `HostPort`, `Node`, `NodePrinting`, `NodeTrimming`, `Cli`, `CliFlags`, `Config`, `ConfigMeaning` | the hand-written parsers and the configuration |
| `Nftables`, `NatRules` | NAT mode: the emitted ruleset, a reader for it, and what happens to a packet |

**How runs are modelled.** Tasks are state machines whose atomic steps are interleaved. A schedule is any
sequence of steps; a step that is not possible in the current state changes nothing, so a statement about
every schedule is a statement about every run. Relaxed atomics are taken as sequentially consistent. In
the UDP model, reading the clock and storing it is one step. Where the program updates objects in place
the model has classes. The UDP listener is a heap of sockets, clocks and task objects shared by
reference, with a representation invariant; each of its methods is proved to take one step of the state
machine. So are the copy loops with their reused buffer, the SOCKS5 stream and the counters of a
listener, whose `on_accept` is two steps with anything in between. The shutdown channel's methods are
proved against the channel operations that the shutdown state machine is built from.

**How text is modelled.** A Rust `str` is a sequence of UTF-8 bytes, and a Dafny `string` here is that
sequence of bytes, one `char` per byte.

**Where code and documentation differ.** The model follows the code.

- The comment on `Shutdown` (`src/runtime.rs:15-16`) says no wake-up is lost. A signal that comes while no
  task waits is lost for good (`EarlySignalIsLost`), because `watch::Sender::send` does nothing without a
  receiver and `Shutdown::new` keeps none. `SignalTakesEffectIff` gives the exact condition, and
  `MainMakesItSafe` shows that it holds once the main task or the heartbeat waits.
- `README.md:81` of the repository names `copy_bidirectional`; the relay stops at the first direction to
  finish (`src/relay.rs:26-39`), and so does the model.
- The per-listener status line reads `accepted` before `active` and can show more active than accepted
  connections (`SummaryCanInvert`). It cannot as long as no more connections are accepted while it is
  read than had ended before, and that bound is exact (`SummaryOrderedIff`). The totals are always in
  order (`Dump`, `HeartbeatLine`).
- A node text is trimmed before it is parsed, so a target, query value or host that ends in white space does not
  come back from its printed form (`ParsePrintIff`).
- A mark above 32 bits is truncated silently (`MarkIsKeptIff`).
- RFC 1929 section 2 asks for fields of 1 to 255 bytes; a missing password is sent as an empty field
  (`StrictAuthIff`).
- Round robin is unfair across the wrap of its counter unless the number of targets divides 2^64
  (`FairForeverIff`).
- A UDP datagram can be sent on a session whose reverse task has just gone; its answer is never read.
  A socket failure makes that possible for every datagram, the first of a session included
  (`StaleSendHappens`); without one it is possible exactly from the end of the session's lifetime on
  (`StaleSendIff`). Isolation holds all the same.
- NAT mode ignores bind addresses, so of two accepted listeners on one port with different binds only the
  first gets traffic (`BoundElsewhereIsShadowed`, `EarlierListenerTakesAll`, `ListenerIsServedIff`).

## Model

| member | source | states |
|---|---|---|
| `UdpRuns.EntriesMatchTasks` | src/forward/udp.rs:71-99 | In every reachable interleaving, restarts included, map entries are in bijection with the reverse tasks that have not removed themselves and the inserted session whose task is just being spawned: each entry names the session of its own generation and peer, each such session has its entry, no two of a generation share a peer |
| `UdpRuns.InsertIsFresh` | src/forward/udp.rs:84-89 | When a session is inserted, its peer has no entry and no live session of this generation, so nothing is overwritten although the map was unlocked since the lookup |
| `UdpRuns.RemoveIsOwn` | src/forward/udp.rs:196 | A reverse task removes its own entry from its own generation's map and leaves every other entry of every map as it was |
| `UdpRuns.SessionIsFixed` | src/forward/udp.rs:81-99 | For the whole rest of any run a session keeps its peer, generation and target, its histories only grow and its clock never goes back |
| `UdpRuns.SessionsAreIsolated` | src/forward/udp.rs:72-105 | Over whole runs, stale handles included: what left a socket is exactly, in order, what the loop booked as sent on it, all from the one peer it was opened for; all read from it is passed on once, in order, to that peer only |
| `UdpRuns.SentOnceInOrder` | src/forward/udp.rs:53-112 | What left a socket is a subsequence, in order and without repetition, of what its peer sent to the listener; no datagram leaves on two sockets |
| `UdpRuns.DatagramFollowsEntry` | src/forward/udp.rs:72-78 | A datagram of a peer with an entry is sent, unaltered, on that entry's socket; whatever socket the loop holds belongs to the datagram's peer |
| `UdpRuns.DatagramsAreConserved` | src/forward/udp.rs:53-112 | Every received datagram is settled once and in order of arrival, as dropped or as sent on one named socket, and each one booked as sent did leave that socket |
| `UdpRuns.GaugeIsExact` | src/forward/udp.rs:90-99 | Across restarts the gauge is the number of reverse tasks alive, plus a guard about to be handed over, never negative and never above accepted |
| `UdpRuns.PicksAreFair` | src/forward/udp.rs:201-209 | Within a generation the picks are fair, whether or not the openings succeed |
| `UdpRuns.SessionsFollowPicks` | src/forward/udp.rs:81-88 | In every run the session being opened goes to the last pick, and the targets of the running generation's sessions, in order of opening, are exactly the picks whose opening worked, all of them if none failed |
| `UdpRuns.SessionsAreSpread` | src/forward/udp.rs:81-88 | While no opening fails the sessions of a generation are connected evenly to the targets |
| `UdpRuns.RestartIsFresh` | src/forward/udp.rs:49-50 | A restart begins with an empty map and a counter of zero and leaves everything of the old generation, and the stats, alone |
| `UdpRuns.ErrorsAreExact` | src/forward/udp.rs:107-110 | The error counter is the failed receives plus the datagrams for which no session could be opened |
| `UdpRuns.ActivityIsRecorded` | src/forward/udp.rs:73-74 | Whenever the loop comes to send or a task to pass a reply on, the session's clock shows that moment and never falls behind it later |
| `UdpRuns.ReapIsSafe` | src/forward/udp.rs:189-193 | The timer ends a session exactly when the clock it read is a lifetime past the activity clock, and then a lifetime has passed since every recorded activity in both directions, although other tasks store between the two reads |
| `UdpRuns.ReapIsTimely` | src/forward/udp.rs:172-196 | With timers on their deadline, every session still in a map was active within the last two lifetimes |
| `UdpStale.StaleSendHappens` | src/forward/udp.rs:72-104 | From every state in which the datagram in hand is going to a session, the first datagram of a session included and whatever its task is doing, some run sends it on that session after it is closed |
| `UdpStale.StaysRun` | src/forward/udp.rs:172-195 | In every run without a socket failure of the session, it stays until a lifetime has passed since both its timer was armed and its last activity |
| `UdpStale.CanBeGoneIff` | src/forward/udp.rs:189-196 | A quiet session can be gone by a given time without a socket failure exactly from that moment on |
| `UdpStale.StaleSendIff` | src/forward/udp.rs:72-104 | The datagram in hand can go out stale by a given time without a socket failure exactly from the soonest end of the session on, for every state of its task |
| `Udp.ApplyKeepsInv` | src/forward/udp.rs:53-198 | Each of the 21 steps of the loop and the tasks keeps bijection, isolation, conservation, the gauge, the picks and the clocks |
| `Udp.TaskFrame` | src/forward/udp.rs:168-198 | A reverse task touches nothing of another session, nor the loop |
| `UdpServer.Server.StoreTime` | src/forward/udp.rs:73 | Storing in a shared clock object changes the activity of the one session it belongs to and no other |
| `UdpServer.Server.LookUp` | src/forward/udp.rs:115-119 | The handles cloned out of the map are those of the session the state machine looks up |
| `UdpServer.Server.Open` | src/forward/udp.rs:82-88 | A new socket and a new clock, shared with nothing, become the next session |
| `UdpServer.Server.Insert` | src/forward/udp.rs:84-89 | The map gets references to the same two objects the loop holds |
| `UdpServer.Server.SpawnReverse` | src/forward/udp.rs:91-99 | The task captures the map, the peer and the same two objects, and these are the session's own |
| `UdpServer.Server.Touch` | src/forward/udp.rs:73 | A store through the loop's handle, stale or not, is seen through the map and by the task of that session only |
| `UdpServer.Server.Send` | src/forward/udp.rs:74-76 | A send through the loop's handle leaves on the session's socket only |
| `UdpServer.Server.Reply` | src/forward/udp.rs:178-181 | The captured peer is the session's peer |
| `UdpServer.Server.Judge` | src/forward/udp.rs:190-192 | The saturating comparison on the shared clock is the verdict of the state machine |
| `UdpServer.Server.Remove` | src/forward/udp.rs:196 | Removing the captured peer from the captured map removes the session's own entry |
| `UdpServer.Server.Run` | src/forward/udp.rs:37-199 | Running any schedule on the heap keeps the representation invariant and reaches the state that the results above speak of |
| `RoundRobin.Picker.Pick` | src/forward/tcp.rs:91-98 | The target picked, and the whole sequence of picks so far |
| `RoundRobin.WindowIsFair` | src/forward/tcp.rs:91-98 | Over any window without a wrap, any two positions are chosen equally often up to one |
| `RoundRobin.WrapIsUnfair` | src/forward/udp.rs:205-206 | Across the wrap, position 0 is chosen twice before another is chosen at all, for every target count that does not divide the word |
| `RoundRobin.FairForeverIff` | src/forward/udp.rs:205-206 | Every window is fair exactly when the number of targets divides the word size |
| `Socks5.ServerReadsClient` | src/socks5.rs:47-56 | A server reading section 3 and 4 of RFC 1928 and section 2 of RFC 1929 recovers the offered methods, user, password, destination and port, and is left with exactly the application bytes |
| `Socks5.GreetingReads` | src/socks5.rs:52-56 | The greeting reads back as the offered methods |
| `Socks5.AuthReads` | src/socks5.rs:90-96 | The authentication request reads back as user and password, up to 255 bytes each |
| `Socks5.ConnectReads` | src/socks5.rs:113-119 | The request reads back as destination and port for all three address types |
| `Socks5.AddrReads` | src/socks5.rs:151-168 | The encoded address reads back exactly |
| `Socks5.Ipv4GoesOutInOrder` | src/socks5.rs:152-154 | The printed form of an IPv4 address goes out as its four octets in order |
| `Socks5.HostFormIff` | src/socks5.rs:151-168 | A host goes out as IPv4 exactly when it is a dotted quad, otherwise as IPv6 if the reader takes it, otherwise as a name of at most 255 bytes, otherwise not at all |
| `Socks5.BytesOnTheWire` | src/socks5.rs:12-20 | The messages byte by byte with the numbers of the RFCs |
| `Socks5.StrictAuthIff` | src/socks5.rs:74 | The request meets the length rule of RFC 1929 exactly when user and password are non-empty |
| `Socks5Client.Stream.ReadExact` | src/socks5.rs:58-59 | However the input is fragmented, the next bytes in order, or failure |
| `Socks5Client.Stream.NegotiateMethod` | src/socks5.rs:39-81 | The bytes written, read and the verdict are those of the reference handshake |
| `Socks5Client.Stream.UserPassAuth` | src/socks5.rs:83-107 | The same for authentication; the reply's version byte is not looked at |
| `Socks5Client.Stream.SendConnect` | src/socks5.rs:109-119 | The same for the request |
| `Socks5Client.Stream.AwaitReply` | src/socks5.rs:121-147 | The same for the reply |
| `Socks5Client.Stream.Connect` | src/socks5.rs:24-37 | The whole handshake |
| `Socks5Exact.ConnectIff` | src/socks5.rs:58-80 | `connect` succeeds exactly when the destination encodes, the writes go through and the input starts with an acceptable method reply, an authentication success if selected, and a success reply |
| `Socks5Exact.ConnectConsumes` | src/socks5.rs:121-146 | On success the unread input is exactly what follows BND.PORT, for all three address types |
| `Socks5Exact.ReplyAccepted` | src/socks5.rs:122-146 | Every success reply is accepted and consumed exactly |
| `Socks5Exact.AcceptedReply` | src/socks5.rs:122-146 | Every reply accepted was a success reply, consumed exactly |
| `Socks5Exact.PlayedScriptSucceeds` | src/socks5.rs:34-36 | Against any peer, also one that answers step by step, a followable script makes the client succeed |
| `Socks5Exact.SuccessHasScript` | src/socks5.rs:34-36 | Every success has such a script behind it |
| `Socks5Exact.FailureSaysWhy` | src/socks5.rs:60-80 | Every failure tells the truth: the byte it reports stands where it was read and is one that must fail, or the client's own setting is at fault |
| `Chain.ServeLeg` | src/chain.rs:30-54 | An accepting server answers with its script and passes on exactly what follows the leg |
| `Chain.Route` | src/chain.rs:1-5 | Bytes written after a route of accepted legs reach the endpoint at its end, and only that one |
| `Dial.Dial` | src/chain.rs:17-57 | The loop over the hops makes the handshakes of the reference in order, on one stream, and stops at the first failure |
| `Dial.HopIff` | src/chain.rs:36-53 | One hop at an honest server succeeds exactly when that server accepts it and the transport takes the bytes |
| `Dial.DialIff` | src/chain.rs:30-56 | `dial` succeeds exactly when every hop in turn is willing, and leaves a route with one leg per hop |
| `DialRoute.DialReachesTarget` | src/chain.rs:26-56 | For every chain of honest servers and any target, also one that speaks first: when `dial` succeeds the far end is the target, reached through the hops in order; hop i got exactly one CONNECT, for hop i+1 or the target, with hop i's credentials; the unread input is exactly what the target has said |
| `DialRoute.DialReachesWritten` | src/chain.rs:31-35 | A successful `dial` of a written IPv4 target ends at exactly those octets and that port |
| `DialRoute.ResolveWritten` | src/chain.rs:31-35 | The endpoint a written address or name stands for |
| `DialRoute.ApplicationReachesTarget` | src/chain.rs:3-5 | For any target application: it receives exactly the bytes written after `dial`, and what is then read is exactly its own output from the first byte |
| `DialRoute.StreamStartsAtTarget` | src/chain.rs:3-5 | After `dial` the stream behaves as one that starts at the target, whatever the target is |
| `DialRoute.DialSucceedsIff` | src/chain.rs:26-56 | From a fresh stream, success exactly when every server on the way is willing |
| `DialRoute.EveryByteGoesToItsHop` | src/chain.rs:36-53 | In every run, failed ones included, each byte of the exchange under way, credentials included, was written while the far end was its own hop, and a failure names that hop |
| `DialRoute.CompletedLegStays` | src/chain.rs:36-53 | The same for each completed exchange: the far end moves on only with its last byte |
| `Relay.RelayIsFaithful` | src/relay.rs:43-58 | For every interleaving, read size and partial write: a prefix is delivered, delivered and pending make up what was read, the buffer bound holds, and `total` is the bytes delivered at the loop head |
| `Relay.FirstToFinishWins` | src/relay.rs:33-38 | Once one direction has ended nothing moves any more |
| `Relay.AtMostOneEnds` | src/relay.rs:33-38 | In every run at most one direction ends |
| `Relay.OkMeansCompleteIff` | src/relay.rs:51-53 | A direction that ends at EOF delivered all its input, whatever happened to the other, exactly for a non-empty buffer |
| `Relay.ErrorIff` | src/relay.rs:51-55 | In every run a direction ends with an error exactly when, while both were running, one of its reads failed or one of its writes failed or took nothing |
| `Relay.Delivers` | src/relay.rs:50-57 | From every state of a running relay, successful reads and writes bring a direction to deliver all that has arrived, and to end without error if its source has closed |
| `Relay.Copier.Fill` | src/relay.rs:51 | A read overwrites the front of the one reused buffer |
| `Relay.Copier.Drain` | src/relay.rs:55-56 | A partial write hands over the next pending bytes; the total moves when the chunk is through |
| `Relay.Copier.Poll` | src/relay.rs:50-57 | One poll of the loop over its reused buffer takes the step of the model |
| `Relay.Transport` | src/relay.rs:29-39 | The race polls both loops as scheduled until one ends |
| `Supervisor.Supervise` | src/supervisor.rs:22-86 | The loop announces exactly the reference backoffs, restarts only failed or panicked runs, takes a shutdown at the moment it comes, or at the join of a run that was just ending, says at which moment and why else it stopped, and never outruns the rate bound |
| `Supervisor.WaitIsNext` | src/supervisor.rs:73-84 | The doubling, capped and reset variable equals the closed form 100 ms times a power of two of the current streak |
| `Supervisor.DebtInvariant` | src/supervisor.rs:27-84 | Restarts run ahead of one every 2620 ms by no more than the debt of the current backoff |
| `Supervisor.RateBound` | src/constants.rs:35-40 | For every mix of runs, 2620 times the completed cycles is at most the elapsed time plus 10000 |
| `Supervisor.RateBoundIsTight` | src/constants.rs:35-40 | That bound is met with equality by arbitrarily long runs |
| `Shutdown.Channel.Trigger` | src/runtime.rs:35-37 | Sending raises the flag only when there is a receiver |
| `Shutdown.Channel.Cancelled` | src/runtime.rs:44-55 | While other tasks do anything, the wait resolves exactly when the flag is up or a signal is sent meanwhile, and holds a receiver exactly until then |
| `Shutdown.ExitsOnlyAfterShutdown` | src/supervisor.rs:29-83 | In every run of the main task, the heartbeat, supervisors and serve loops, one that has exited did so after a signal that came while some task was waiting |
| `Shutdown.ServesAgain` | src/supervisor.rs:69-85 | While no shutdown has come, from every reachable state every listener can come back to accepting, whatever its serve task did |
| `Shutdown.EveryoneWorks` | src/app.rs:57-102 | While no shutdown has come the main task comes to wait, the heartbeat beats and waits again, an accepting listener takes the next event |
| `Shutdown.FlagIsPermanent` | src/runtime.rs:39-41 | A raised flag stays raised; a spent signal changes nothing later |
| `Shutdown.SignalTakesEffectIff` | src/runtime.rs:29-37 | Shutdown is seen by every later observer exactly when some task, the heartbeat included, waited at the signal |
| `Shutdown.EarlySignalIsLost` | src/runtime.rs:29-32 | A signal before anyone waits is never seen |
| `Shutdown.MainMakesItSafe` | src/app.rs:57-60 | Once the main task or the heartbeat waits, a signal is not lost |
| `Shutdown.MainStaysReceiver` | src/app.rs:60 | From the moment the main task waits there is a receiver in every run until the flag is up |
| `Shutdown.EveryoneLeaves` | src/supervisor.rs:29-83 | Once the flag is up, in every schedule a task takes at most two steps as a supervisor, main or serve task and three as the heartbeat before it has ended, and none starts again |
| `Shutdown.NextLookReturns` | src/supervisor.rs:29-83 | Until then none is stuck: a step of its own moves it on, and a supervisor's next look at the flag returns |
| `Stats.ListenerStats.OnAccept` | src/stats.rs:35-39 | Two separate steps of the run with anything in between, and a guard of its own |
| `Stats.ListenerStats.Drop` | src/stats.rs:92-96 | One live guard less; the decrement never meets zero |
| `Stats.ListenerStats.Run` | src/stats.rs:35-47 | Any interleaving of the atomic operations on the object reaches the counters that the run determines |
| `Stats.GaugeIsExact` | src/stats.rs:35-39 | In every interleaving accepted is active plus dropped plus half-finished accepts, and active never underflows |
| `Stats.EveryEventCounts` | src/stats.rs:35-43 | Each accept and each restart is counted once, for its own listener |
| `Stats.Dump` | src/stats.rs:106-116 | The totals are the sums of the values read at their moments; never more active than accepted, and accepted between the true sums before and after |
| `Stats.HeartbeatLine` | src/stats.rs:118-126 | The same order argument over three separate passes |
| `Stats.SummaryCanInvert` | src/stats.rs:77-85 | The per-listener line can show more active than accepted |
| `Stats.SummaryIsOffByNewAccepts` | src/stats.rs:77-85 | By no more than the accepts that happened while it was read, less the connections that had ended before |
| `Stats.SummaryOrderedIff` | src/stats.rs:77-85 | With at most k accepts while it is read the line is in order whatever happens, exactly when at least k connections had ended before |
| `HostPort.SplitIff` | src/netopt.rs:144-160 | Splitting succeeds exactly on the spellings of a non-empty host and a 16-bit port and gives them back |
| `HostPort.SplittersAgree` | src/config.rs:234-253 | The validator accepts exactly what the dialer's splitter accepts |
| `HostPort.StoredAddressSplits` | src/node.rs:31-33 | A stored address whose host opens no bracket splits into the same parts |
| `HostPort.OpenBracketRejected` | src/netopt.rs:146-150 | One that opens a bracket without closing it does not split |
| `Node.DecodeText` | src/node.rs:167-188 | The shortcut and the index loop both compute the recursive meaning of percent-decoding |
| `Node.DecodeEncode` | src/node.rs:165-188 | Decoding undoes encoding for every choice of unescaped bytes |
| `Node.HexDigitIff` | src/node.rs:176-177 | Hex digits of either case and nothing else, with their values |
| `Node.EscapeDecodes` | src/node.rs:174-186 | An escape stands for the byte of its value; a percent sign that begins none stands for itself |
| `Node.ShortDecodes` | src/node.rs:175 | A text too short for an escape stands for itself |
| `Text.TrimCharKeeps` | src/node.rs:87 | Trimming slashes takes whole runs of them from both ends and nothing else |
| `Node.HostPortIff` | src/node.rs:129-159 | Accepts exactly the spellings of a host and an optional 16-bit port and gives them back |
| `Node.SchemeDecides` | src/node.rs:59-71 | A text without `://`, or with nothing before it, is refused; the scheme is what stands before the first one, in lower case |
| `Text.UintIff` | src/node.rs:161-163 | Numbers are digits with an optional plus sign, leading zeros allowed, up to the bound |
| `Text.I64Iff` | src/cli.rs:79-85 | Signed numbers are digits with an optional sign, within 64 bits |
| `Node.ParseQuery` | src/node.rs:104-114 | The query loop builds the map in which later pairs win |
| `Node.QueryLookup` | src/node.rs:104-114 | A key has a value exactly when a non-empty piece gives it one, and it is the last such value |
| `Node.PairIs` | src/node.rs:106-112 | A piece splits at its first `=`; without one the value is empty |
| `Node.ReadNode` | src/node.rs:58-125 | The parser with its loops computes the same node or error as its specification |
| `Node.StoredHopAddress` | src/config.rs:148-151 | A parsed node's stored address validates exactly when its host is non-empty and opens no bracket, and then splits into the node's own host and port |
| `NodePrinting.ParsePrint` | src/node.rs:58-125 | Parsing undoes printing for every well-formed node and every spelling of it, raw `@` in passwords included |
| `NodeTrimming.ParsePrintIff` | src/node.rs:58-59 | For every well-formed node and spelling, the round trip holds exactly when the printed text does not end in white space, which is trimmed first |
| `NodePrinting.MapOfDistinct` | src/node.rs:104-114 | With distinct keys every pair of the query comes back with its own value |
| `Ip.ParseFormat` | src/socks5.rs:152-154 | An IPv4 address reads back from its printed form |
| `Ip.FormatParse` | src/socks5.rs:152 | An accepted IPv4 literal is the printed form of its address |
| `Cli.ParseArgs` | src/cli.rs:38-139 | The index loop computes the result of the scan |
| `Cli.ExpandKeepsResult` | src/cli.rs:55-74 | Writing every `-X=v` at a flag position as `-X` `v` leaves the whole result unchanged, for every argv and value |
| `Cli.SameExpansion` | src/cli.rs:5-7 | Argument lists that expand alike mean the same |
| `Cli.SplitOneFlag` | src/cli.rs:63-74 | Rewriting one such flag, wherever it stands, leaves the result unchanged |
| `Cli.DashesDoNotMatter` | src/cli.rs:5-7 | Leading dashes added to or taken from flags change nothing, for every argv |
| `Cli.RepeatedFlagsInOrder` | src/cli.rs:77-78 | `-L` and `-F` values come out complete and in argv order |
| `CliFlags.LastFlagWins` | src/cli.rs:76-125 | For every accepted argv and every scalar flag: its own field holds what the last value given under any of its names means, or the default |
| `CliFlags.IdentifyIff` | src/cli.rs:76-128 | Each flag is read from its own names and no others |
| `CliFlags.BoolIff` | src/cli.rs:142-151 | Which values mean yes and which mean no; a bare switch means yes |
| `CliFlags.TokenStops` | src/cli.rs:47-53 | How a token ends the scan: help, version, an unknown name, a missing value, a stray argument, arguments after `--` |
| `CliFlags.NothingGiven` | src/cli.rs:11-28 | What is so without any flag |
| `Config.HasDuplicate` | src/config.rs:178-191 | The nested loop finds a duplicate exactly when the listeners are not pairwise distinct |
| `Config.CheckTargets` | src/config.rs:116-118 | The first target that does not validate |
| `Config.ReadListener` | src/config.rs:94-136 | One `-L` becomes its listener or its first error |
| `Config.BuildConfig` | src/config.rs:84-230 | The loops compute the specified configuration or the first error in source order |
| `Config.AcceptedIsReady` | src/config.rs:84-230 | Every accepted configuration meets the runtime's preconditions: targets to pick from, all splittable, buffer within bounds, no chain with NAT or UDP, listeners distinct |
| `Config.BuildIff` | src/config.rs:84-230 | Acceptance stated without the order of the checks, in both directions |
| `Config.HopOfReady` | src/config.rs:139-157 | An accepted hop's address splits into the parsed node's host and port |
| `ConfigMeaning.PrintedHop` | src/config.rs:139-157 | A printed node is accepted as a hop exactly when it is a socks5 node with a port and a host that opens no bracket, and the hop has the node's address, user and password |
| `ConfigMeaning.PrintedListener` | src/config.rs:94-136 | A printed node is accepted as a listener exactly when it is a tcp or udp node with a port and splittable targets, and the listener has the node's protocol, port, targets, bind address, name and delay setting |
| `ConfigMeaning.TargetsAreNamed` | src/node.rs:46-53 | The targets of a comma-separated list are its entries in order, without blanks around them and without empty ones |
| `ConfigMeaning.AcceptedReflects` | src/config.rs:193-229 | Every field of an accepted configuration against the flag it comes from or its default |
| `Config.SameEndpointRefused` | src/config.rs:178-191 | The same protocol, port and interface twice is refused, also when one leaves out `0.0.0.0` or spells the port differently |
| `Config.MarkIsKeptIff` | src/config.rs:200-204 | The stored mark is the given one exactly when it fits in 32 bits |
| `Nftables.BuildTable` | src/nat/nftables.rs:97-121 | The text of one table |
| `Nftables.BuildRuleset` | src/nat/nftables.rs:83-95 | The text of the tables that the rules stand for |
| `Nftables.FrameText` | src/nat/nftables.rs:99-119 | The fixed lines of a table, word for word |
| `Nftables.FilterFamily` | src/nat/nftables.rs:84-85 | The rules of one family, in order |
| `Nftables.ReadBackIff` | src/nat/nftables.rs:83-121 | Reading the emitted text gives exactly the IPv4 rules in `ip` and the IPv6 rules in `ip6`, in order, if and only if no comment holds a quote or a line feed |
| `Nftables.NothingLost` | src/nat/nftables.rs:84-85 | The two tables together hold each rule as often as it was given |
| `Nftables.ReadFormatDest` | src/nat/nftables.rs:130-135 | A printed destination reads back, for both families |
| `Nftables.PacketMeetsFirstRule` | src/nat/nftables.rs:102-110 | Under the emitted text a packet goes to the first input rule of its family that matches, repeated ports included, and nowhere if there is none |
| `NatRules.BuildRules` | src/nat/linux.rs:101-126 | One rule per listener in order, or the first error |
| `NatRules.RulesAre` | src/nat/linux.rs:101-126 | The rules exist exactly when every listener has one, and rule i is that of listener i |
| `NatRules.ResolveIp` | src/nat/linux.rs:129-141 | The loop over the looked-up addresses takes the preferred one; a dotted quad is not looked up |
| `NatRules.FirstV4` | src/nat/linux.rs:134-139 | The first IPv4 address is preferred |
| `NatRules.NoV4` | src/nat/linux.rs:133-140 | Without one, the last address is taken |
| `NatRules.WrittenTarget` | src/nat/linux.rs:112-123 | A target written as an IPv4 address and port gives a rule for that address and port, on the listener's protocol and port |
| `NatRules.RulesAreReadable` | src/nat/linux.rs:116 | The comments made from a configuration never break the text |
| `NatRules.CommentNames` | src/nat/linux.rs:116 | The comment is marked `gust:` and names protocol, port and destination |
| `NatRules.ListenerIsServedIff` | src/nat/linux.rs:103-124 | A listener's port leads to its own target exactly when the first listener of the same protocol, port and family has that target |
| `NatRules.WrittenTargetIsServed` | src/nat/linux.rs:103-124 | Packets for the first listener of a protocol and port go to the address and port written as its target |
| `NatRules.BoundElsewhereIsShadowed` | src/nat/linux.rs:117-123 | Two listeners on one port with different binds pass the duplicate check, and the second gets nothing of its target's family |
| `NatRules.EarlierListenerTakesAll` | src/nat/linux.rs:103-124 | In every accepted configuration, packets for a listener go to the first one of its protocol, port and family, never to a later one |

## Left out

- Sockets, DNS, connect and their options: success or failure is a parameter or a step of the environment.
- Dial and handshake time limits: for a single hop a timeout shows as input that ends early or a write that fails; honest servers in a chain answer in time, and there only writes fail.
- Hops that are not honest SOCKS5 servers: along a chain nothing is promised about them; `ConnectIff` covers arbitrary input on a single hop.
- IPv6 literals: their reader is any partial function to 16 bytes; in NAT mode an address is its printed form, and resolving an IPv6 literal is part of the lookup.
- `Node.DecodeText`: does not model the replacement of invalid UTF-8 after decoding, because it keeps the decoded bytes as they are.
- Weak memory: atomics are interleaved; counters are unbounded except the round-robin one.
- `UdpRuns.ReapIsTimely`: speaks of runs whose timers fire on their deadline, because nothing bounds a timer that fires late.
- Datagrams longer than the 64 KiB buffer, and a poisoned mutex.
- Tearing down the runtime, which cancels tasks from outside; the heartbeat's output and the signal handlers themselves.
- Running `nft`, `/proc`, capabilities and NAT cleanup; the JSON status; logging, help text and error wording.
- The kernel's own rule evaluation beyond first match, connection tracking and masquerading.
