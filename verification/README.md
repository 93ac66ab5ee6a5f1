# A model of cbbncd

cbbncd bounces FTP control connections and, in traffic mode, the data connections they announce. This project
states in Dafny what its hardest parts are for, and proves it.

The parts, and the files that hold them:

- **Event delivery and flow control.** `Delivery` is a state machine whose steps are the atomic actions of the I/O
  thread, the worker thread and any number of other producers: pushes, posts, waits, single reads and writes of the
  overload flags, size tests one queue at a time, and what happens under the I/O manager's lock.
  `DeliveryGuarantees` says what every interleaving keeps. `Queues` and `WorkManager` are the classes behind it, and
  `WorkManager` shows that a dispatch or a turn of the worker that nobody comes between is what its methods do.
- **Sockets.** `SocketTable` is what the I/O manager knows about its sockets, as a value, with what each handler
  makes of it and the agreement every handler keeps; `SocketRuns` draws the conclusion for every run. `DataBlocks` is
  the pool of 16 KiB blocks, `Ownership` the books kept of which queue has which block and which bytes were sent and
  written, and `IOManager` the class whose methods do all this on heap blocks, maps and sets.
  `Writes` says what the answers of the system to writes mean, and `SocketLaws` and `HandlerLaws` what the operations and
  handlers are for, without naming them.
- **Passive ports and traffic bouncing.** `ListenPorts` is the allocator, `Bounce` the sessions and their pools as
  values, `TrafficBnc` the classes, proved to do what `Bounce` says. `BounceRuns` lets any number of control
  connections run against one allocator, `BounceGuarantees` says what that keeps, and `BounceLaws` what
  each event means for a session.
- **The text layer.** `ResponseParser` recognises replies that arrive in pieces (sections 4.1.2 and 4.2 of RFC 959),
  `PasvString` reads and prints PASV and EPSV strings (sections 2 and 3 of RFC 2428 for the latter), `Addresses` site
  addresses, `Wildcard` matches patterns; `Text`, `Fields` and `Sets` are what they share.
- **Bounced control connections.** `CommandParser` collects commands, `BncSessionClient` rewrites commands and replies,
  `Rewriting` says what is read from a rewritten text, and `Lockstep` follows a command, its reply in pieces and the
  port from the allocator to what the client reads; `Conversations` has what else can be said and answered.

`dafny verify dfyconfig.toml` checks the whole project.

Conventions. System calls, `rand()` and `time()` are parameters or arbitrary results. `std::string::npos` is -1, so
that `npos + 1` is 0 as it is for the unsigned original. An uncaught exception is the outcome `Threw` or `Thrown`;
where the source reads past the end of something, or goes on with a reference that is no longer good, the outcome is
`Undefined` or `dangling` and the model stops there. A flag is read and written in one step; the sizes in a test are
read one after the other, in any order. In the runs of `BounceRuns` an accept is delivered only while its
listener is open and a connection failure only for the current attempt; `LateAcceptKeeps`, `LateAcceptUnblocks` and
`LateFailureKeeps` say exactly what happens otherwise, `SecondAccept`, `UnblockedAtOnce` and `FailureAfterEnd` that it
can happen. The end of a socket is reported once and ids are never reused.

Where the code does not do what it seems meant to do, the model follows the code:

- `PasvListener::FDFail` and `PasvConn::FDDisconnected` assign their parameter where the field has the same name.
- `IOManager::handleTCPSSLIn` ignores the answer to every full block; the `autoPause` behind its loop is not reached.
- A size test can be stale by the time the flag is set (`LateFlag`): the worker then sleeps with a socket paused until
  the next queued event, such as a tick (`QueuedEventRecovers`). A signal un-pauses nothing. A flag raised that late
  pauses nothing when the answer is not looked at or the socket is closed, hence the condition of `PausedExactlyLate`.
- `IOManager::registerTCPServerClientSocket` makes an entry without a type when the connection has gone by then
  (`GoneBeforeRegistered`), and a handshake on a connection resumed without listening by itself is recorded as waiting
  for output but watched for input (`WatchedEarlyHappens`).
- `IOManager::handleTCPSSLNegotiationOut` goes on with a socket that its own flush may have closed.
- `TrafficBncSession` does not ask whether it is awaiting when an accept or a failure arrives (`SecondAccept`,
  `UnblockedAtOnce`, `FailureAfterEnd`).
- A PORT that goes out as EPRT is answered as successful also when the site refuses (`PortAlwaysSucceeds`).
- PORT or EPRT without an argument has its second word read all the same (`NoSecondWord`).
- EPSV sent on unchanged has the session listen on the family of the address the site gives, if it gives one, whatever
  the client asked for (`EpsvAcrossFamilies`).
- A PASV or EPSV reply without a closing parenthesis makes the rewriting throw after a port has been taken
  (`ThrownExactly`, `ThrowsWithoutEnd`).
- Rewriting reads as our address only when that address is a dotted quad (`PasvRewritten`), and printed site addresses
  are read back only when well-formed (`AddressRoundTrip`).

## Model

| member | source | states |
|---|---|---|
| `Wildcard.WildcmpCase` | src/core/util.cpp:46-75 | true exactly when the pattern can be cut so that each star stands for any string, each question mark for any one character and every other character for itself, over the whole text; the loops end and never use an unset backtrack point |
| `Wildcard.Wildcmp` | src/core/util.cpp:11-44 | the same relation between the case-folded pattern and the case-folded text |
| `Wildcard.Backtrack` | src/core/util.cpp:46-75 | remembering only the last star decides the match by positions, for both matchers |
| `Wildcard.MatchIsGlob` | src/core/util.cpp:46-75 | matching by positions is the declarative glob relation |
| `Wildcard.Behind` | src/core/util.cpp:46-75 | the glob relation without its parts: two patterns one behind the other match what is cut into a match of each |
| `Wildcard.Literal` | src/core/util.cpp:46-75 | a pattern without wildcards matches itself alone |
| `Wildcard.OneAny` | src/core/util.cpp:46-75 | a question mark matches exactly one character |
| `Wildcard.FoldsLetters` | src/core/util.cpp:15-17 | characters are the same but for case exactly when they are the small and the capital form of a letter |
| `Wildcard.FoldedMatch` | src/core/util.cpp:11-44 | comparing letters in either case is matching the folded texts |
| `Wildcard.EarliestSuffices` | src/core/util.cpp:61-70 | giving up every earlier star loses no match: the earliest place reached at the next star is as good as any later one |
| `Wildcard.NothingBeyond` | src/core/util.cpp:57-74 | when the text runs out no later restart can succeed, so the answer no is final |
| `PasvString.FromPASVString` | src/ftp/pasvstring.cpp:31-61 | parsing with five searches and in-place edits is reading the comma-separated fields, throwing exactly when one of the two numbers cannot be read |
| `PasvString.OverlongField` | src/ftp/pasvstring.cpp:57-57 | the substring for the high byte runs past its separator without changing the number |
| `PasvString.LastField` | src/ftp/pasvstring.cpp:58-58 | whatever follows a sixth comma does not change the low byte |
| `PasvString.ToPASVString` | src/ftp/pasvstring.cpp:63-72 | the replacing loop turns every dot into a comma, and appends quotient and remainder of the port |
| `PasvString.PasvRoundTrip` | src/ftp/pasvstring.cpp:31-72 | parse after print is the identity exactly for addresses with three dots and no comma, for every port an int holds |
| `PasvString.PasvReprint` | src/ftp/pasvstring.cpp:31-72 | print after parse is the identity exactly on the strings the printer writes |
| `PasvString.ExtendedByFields` | src/ftp/pasvstring.cpp:74-95 | the EPSV parser reads the second, third and fourth bar-separated fields, whatever surrounds them |
| `PasvString.ExtendedRoundTrip` | src/ftp/pasvstring.cpp:74-103 | parse after print is the identity exactly for a family with a number or none and an address without a bar |
| `PasvString.ExtendedReprint` | src/ftp/pasvstring.cpp:74-103 | print after parse is the identity exactly on the strings the printer writes |
| `PasvString.ProtocolNumbers` | src/ftp/pasvstring.cpp:5-26 | 1 stands for IPv4 and 2 for IPv6, as in section 2 of RFC 2428, and nothing where the family goes without saying |
| `Addresses.ParseAddress` | src/address.cpp:44-117 | the parser with its scans is: family by mark or by guess, then brackets, host and port |
| `Addresses.Guess` | src/address.cpp:59-84 | two colons make IPv6, digits, dots and colons IPv4, with a leading 0x passed over |
| `Addresses.ParseBody` | src/address.cpp:86-116 | the second half: brackets count only when closed and for a port other than 21, a colon starts the port unless the family is IPv6 |
| `Addresses.AddressRoundTrip` | src/address.cpp:17-117 | parsing a printed address gives it back exactly when it is well-formed, for every address |
| `Addresses.MarkedAndBracketed` | src/address.cpp:44-117 | a mark, brackets and a port are read |
| `Addresses.HostWithPort` | src/address.cpp:44-117 | so are a number address and a port |
| `Addresses.HexadecimalGuess` | src/address.cpp:59-84 | a leading 0x is passed over when the family is guessed |
| `Addresses.BracketedBody` | src/address.cpp:86-116 | a bracketed host survives exactly when it has no closing bracket and the port is not 21 |
| `Addresses.BareBody` | src/address.cpp:86-116 | a bare host survives exactly when nothing in it is taken for a port separator or a bracket pair |
| `Addresses.UnmarkedFamily` | src/address.cpp:50-84 | an unspecified family survives exactly when the host looks neither marked nor numeric nor like IPv6 |
| `ResponseParser.FTPResponseParser.Append` | src/ftp/responseparser.cpp:19-30 | the buffer holds what it held followed by the new bytes, across doublings |
| `ResponseParser.FTPResponseParser.Scan` | src/ftp/responseparser.cpp:32-46 | the backward scan finds the last line that starts with three digits and a blank or is nothing but three digits, and reads its code |
| `ResponseParser.CodeIsNumber` | src/ftp/responseparser.cpp:39-39 | the code reported is the number the three digits print |
| `ResponseParser.ReportsLast` | src/ftp/responseparser.cpp:32-46 | what is reported is the last line that is opened by three digits and a blank, or is nothing but three digits, with one more character behind |
| `ResponseParser.FTPResponseParser.Parse` | src/ftp/responseparser.cpp:19-66 | one call does one step of the recogniser, the repeated 550 of glftpd and the alarm on a first chunk without a code included, whatever the buffer holds behind the text |
| `ResponseParser.FTPResponseParser.Reset` | src/ftp/responseparser.cpp:68-71 | empties the buffer and keeps the code |
| `ResponseParser.NothingInside` | src/ftp/responseparser.cpp:32-46 | no part of a reply that stops short of its end is taken for a reply |
| `ResponseParser.FragmentationIndependence` | src/ftp/responseparser.cpp:19-66 | for every split of a reply into chunks: every call but the last answers no and the last yes, exactly when it is one piece or its first chunk is under three bytes or starts with a code; and then buffer and code are those of the whole reply |
| `ResponseParser.Dropped` | src/ftp/responseparser.cpp:47-55 | a 550 reply none of whose characters rules it out can be dropped as the line glftpd repeats, for what the buffer holds behind it: so the condition on such replies is exact |
| `ResponseParser.GlftpdDropped` | src/ftp/responseparser.cpp:48-55 | the line of glftpd itself is dropped, whatever lies behind it |
| `ResponseParser.RfcReplyAnySplit` | src/ftp/responseparser.cpp:19-66 | so no split of a reply of section 4.2 of RFC 959, said in the terms of that section, is ever misjudged, and the code reported is its number |
| `ListenPorts.Ports.AcquireFindsFree` | src/listenportmanager.cpp:40-54 | whatever rand() says, a port is returned whenever one is free, and it is a free one |
| `ListenPorts.Ports.NearestFree` | src/listenportmanager.cpp:40-54 | the port returned is the free one nearest to the random place, going round the range |
| `ListenPorts.ListenPortManager.constructor` | src/listenportmanager.cpp:19-23 | every port of the range is free |
| `ListenPorts.ListenPortManager.SetPortRange` | src/listenportmanager.cpp:29-38 | a new range starts with every port free and none blocked |
| `ListenPorts.ListenPortManager.AcquirePort` | src/listenportmanager.cpp:40-54 | the circular scan returns the first free port from a random place on, and takes it |
| `ListenPorts.ListenPortManager.ReleasePort` | src/listenportmanager.cpp:56-62 | a port of the range becomes free and is no longer blocked; any other port changes nothing |
| `ListenPorts.ListenPortManager.MarkPortUnavailable` | src/listenportmanager.cpp:64-71 | a port of the range is blocked from now on and not free |
| `ListenPorts.ListenPortManager.Expired` | src/listenportmanager.cpp:75-80 | the first loop lists exactly the ports blocked for more than 3600 seconds |
| `ListenPorts.ListenPortManager.Tick` | src/listenportmanager.cpp:73-86 | exactly those ports become free again |
| `Bounce.AcquireCosts` | src/bnc/trafficbncsession.cpp:31-42 | acquiring takes one free port away, so the bind loop ends |
| `Bounce.PickedIsFirst` | src/bnc/trafficbncsessions.cpp:13-18 | the search picks the first idle session |
| `TrafficBnc.PasvListener.Listen` | src/bnc/pasvlistener.cpp:12-21 | an open listener is closed first; the port is remembered, and listed as failed when the bind fails |
| `TrafficBnc.PasvListener.Disconnect` | src/bnc/pasvlistener.cpp:23-29 | closes the listening socket once |
| `TrafficBnc.PasvListener.FDFail` | src/bnc/pasvlistener.cpp:36-45 | only forgets the oldest failed port: it clears its parameter, not the field |
| `TrafficBnc.TrafficBncSession.TryBind` | src/bnc/trafficbncsession.cpp:31-42 | one turn of the retry loop: a free port is taken and kept, or blocked when the bind fails |
| `TrafficBnc.TrafficBncSession.Activate` | src/bnc/trafficbncsession.cpp:20-46 | the whole activation, ending because each failed bind leaves one free port less |
| `TrafficBnc.TrafficBncSession.Disconnect` | src/bnc/trafficbncsession.cpp:48-56 | everything is closed, the port goes back when the session was awaiting |
| `TrafficBnc.TrafficBncSession.FDNew` | src/bnc/pasvlistener.cpp:31-34 | an accept makes the session active, dials, gives the port back and closes the listener |
| `TrafficBnc.TrafficBncSession.PortConnectFailure` | src/bnc/trafficbncsession.cpp:69-72 | a failed connection makes the session idle and keeps the stale id of the dialled socket |
| `TrafficBnc.TrafficBncSession.PasvConnClosed` | src/bnc/pasvconn.cpp:28-34 | ends the session only for its own socket id, which stays behind since the source clears its parameter |
| `TrafficBnc.TrafficBncSession.PortConnClosed` | src/bnc/portconn.cpp:41-47 | ends the session only for its own socket id |
| `TrafficBnc.TrafficBncSession.DropListener` | src/bnc/trafficbncsession.cpp:126-132 | an awaiting session becomes idle, its port free, its listener closed; others stay |
| `TrafficBnc.TrafficBncSessions.DropListeners` | src/bnc/trafficbncsessions.cpp:13-18 | the loop drops every listener of the pool and finds the first idle session |
| `TrafficBnc.TrafficBncSessions.Activate` | src/bnc/trafficbncsessions.cpp:11-24 | the pool activation on objects that share nothing is the activation on values |
| `TrafficBnc.TrafficBncSessions.Disconnect` | src/bnc/trafficbncsessions.cpp:26-30 | disconnects every session in turn |
| `BounceRuns.BindLoopTries` | src/bnc/trafficbncsession.cpp:31-42 | over the whole loop: only ports free at its start are tried; every failed one ends up blocked; the last one is out with a listening socket; -1 leaves nothing free; no other port is touched |
| `BounceRuns.PoolActivates` | src/bnc/trafficbncsessions.cpp:11-24 | an activation gives the old slot up and takes the new one; active sessions stay; a session is added only when all were active |
| `BounceRuns.DropAllVacates` | src/bnc/trafficbncsessions.cpp:14-17 | dropping the listeners of a pool gives up its one port and socket |
| `BounceRuns.StepKeeps` | src/bnc/trafficbncsession.cpp:20-132 | every event of every control connection keeps the whole invariant |
| `BounceRuns.RunKeeps` | src/bnc/trafficbncsession.cpp:20-132 | so does every run |
| `BounceGuarantees.EveryPortOnce` | src/listenportmanager.cpp:40-71 | after every run each port of the range is exactly one of free, blocked, or the listen port of exactly one awaiting session |
| `BounceGuarantees.ListenersMatchSessions` | src/bnc/pasvlistener.cpp:12-34 | the listening sockets open are exactly those of the awaiting sessions, on their ports |
| `BounceGuarantees.PoolBound` | src/bnc/trafficbncsessions.cpp:11-24 | a pool has at most one awaiting session, and at most one session more than were ever active at once |
| `BounceGuarantees.ActivePassedOver` | src/bnc/trafficbncsessions.cpp:13-18 | activating leaves every active session of every pool as it is |
| `BounceGuarantees.BlockLasts` | src/listenportmanager.cpp:64-86 | while no more than 3600 seconds have passed, a blocked port is neither tried nor unblocked, whatever happens |
| `BounceGuarantees.ExhaustedWhen` | src/bnc/trafficbncsession.cpp:31-37 | with binds succeeding, an activation returns -1 exactly when each port is blocked or held by another control connection |
| `BounceGuarantees.FailureMeansNone` | src/bnc/trafficbncsession.cpp:31-42 | whatever the binds do, -1 means that each port is blocked or held elsewhere afterwards |
| `BounceGuarantees.ExhaustedByCount` | src/bnc/trafficbncsession.cpp:31-37 | with nothing blocked, -1 is returned exactly when the other pools hold as many ports as there are |
| `BounceGuarantees.NeverExhausted` | src/bnc/trafficbncsession.cpp:31-45 | over every run in which binds succeed, with no more control connections than ports no activation returns -1 |
| `BounceGuarantees.OneTooMany` | src/bnc/trafficbncsession.cpp:31-37 | with one more, it does exactly when all the others listen |
| `BounceGuarantees.LateAcceptKeeps` | src/bnc/pasvlistener.cpp:31-34 | an accept delivered at any time keeps the ports straight exactly when the session is awaiting or its last port is not out |
| `BounceGuarantees.SecondAccept` | src/bnc/pasvlistener.cpp:31-34 | and from every start there is a run to the other case: the second of two accepts on one listener frees a port on which another control connection listens |
| `BounceGuarantees.LateAcceptUnblocks` | src/bnc/trafficbncsession.cpp:58-67 | an accept delivered at any time leaves every blocked port blocked exactly when the last port of the session is not a blocked one by now |
| `BounceGuarantees.UnblockedAtOnce` | src/bnc/trafficbncsession.cpp:58-67 | and from every start there is a run to that case: the second of two accepts on one listener unblocks a port in the second in which it was blocked |
| `BounceGuarantees.LateFailureKeeps` | src/bnc/portconn.cpp:49-53 | a connection failure delivered at any time keeps them straight exactly when the session is not awaiting; else its port is lost |
| `BounceGuarantees.FailureAfterEnd` | src/bnc/portconn.cpp:49-53 | and from every start there is a run to that case: the passive side ends, the session is activated again, then the failure queued before is handled |
| `BounceLaws.AcceptLaw` | src/bnc/trafficbncsession.cpp:58-67 | an accept makes the awaiting session active with both connections, frees its port and closes its listening socket, and changes nothing else |
| `BounceLaws.EndOfTransfer` | src/bnc/trafficbncsession.cpp:69-108 | once the end of either connection of an active session is reported, or its dialling has failed, that session is idle; no other session and no port changes |
| `BounceLaws.StrangersEnd` | src/bnc/pasvconn.cpp:28-34 | the end of any other connection changes no session |
| `BounceLaws.AddsWhenBusy` | src/bnc/trafficbncsessions.cpp:11-24 | an activation adds a session exactly when every session of the pool is active |
| `BounceLaws.UsedAgain` | src/bnc/trafficbncsessions.cpp:11-24 | so the next activation after a transfer has ended adds none |
| `BounceLaws.GoneLaw` | src/bnc/trafficbncsessions.cpp:26-30 | once a control connection is gone its sessions are idle and have no sockets, and its port is free |
| `BounceLaws.FailedBindLaw` | src/bnc/trafficbncsession.cpp:31-42 | a bind that fails blocks its port, has it listed, and leaves no listening socket |
| `BounceLaws.ActivatedAnew` | src/bnc/trafficbncsession.cpp:20-30 | activating a session that still listens is giving its port back and activating it as an idle one |
| `CommandParser.FTPCommandParser.Parse` | src/ftp/commandparser.cpp:19-35 | the buffer holds what it held followed by the new bytes, across doublings, and is complete once a chunk ends with a line end |
| `CommandParser.FTPCommandParser.CommandTrimmedUpper` | src/ftp/commandparser.cpp:54-64 | the two loops cut the line ends off and fold the rest to upper case |
| `CommandParser.CommandOfLine` | src/ftp/commandparser.cpp:54-64 | line ends of either form go, and letters become capitals |
| `CommandParser.AllCollected` | src/ftp/commandparser.cpp:19-35 | however a command is cut into chunks all of it is collected, complete exactly when some chunk ends with a line end |
| `CommandParser.SplitVec` | src/util.cpp:32-43 | the words are the fields between single blanks |
| `CommandParser.NoSecondWord` | src/bnc/bncsessionclient.cpp:311-343 | PORT and EPRT have no second word exactly when the command is nothing else |
| `BncSessionClient.BncSessionClient.FDData` | src/bnc/bncsessionclient.cpp:108-250 | a chunk is passed on as it is unless a reply is being caught, held back until the reply is complete, and then answered for; the site socket is paused exactly when the client socket says no to a text and it is not paused yet |
| `BncSessionClient.BncSessionClient.Answered` | src/bnc/bncsessionclient.cpp:117-249 | after the answer the reply is forgotten, the catch is over and TLS begins; after an exception none of that has happened |
| `BncSessionClient.BncSessionClient.Reply` | src/bnc/bncsessionclient.cpp:122-235 | which text is passed on for a reply, what the sessions are asked for, and when TLS begins |
| `BncSessionClient.BncSessionClient.SendComplete` | src/bnc/bncsessionclient.cpp:263-268 | the site socket goes on exactly if it was paused |
| `BncSessionClient.BncSessionClient.PasvReply` | src/bnc/bncsessionclient.cpp:131-167 | a 227 is read, a left-out address filled in, and rewritten with our address and port, or answered as exhausted |
| `BncSessionClient.BncSessionClient.EpsvReply` | src/bnc/bncsessionclient.cpp:168-218 | a 229 is read and rewritten for the family the client asked for, as a 227 when it sent PASV |
| `BncSessionClient.BncSessionClient.Commas` | src/bnc/bncsessionclient.cpp:137-140 | counts the commas |
| `BncSessionClient.BncSessionClient.SendData` | src/bnc/bncsessionclient.cpp:270-373 | a command is held back until it is complete; then which command goes to the site instead, what is caught next, what the sessions are asked for; PORT or EPRT alone has no defined outcome |
| `BncSessionClient.BncSessionClient.Dispatch` | src/bnc/bncsessionclient.cpp:283-369 | what each command makes of the catches, the sessions and the line sent |
| `BncSessionClient.BncSessionClient.PortCommand` | src/bnc/bncsessionclient.cpp:312-339 | PORT is rewritten to our address and port, as EPRT for an IPv6 site, as NOOP when ports are exhausted |
| `BncSessionClient.BncSessionClient.EprtCommand` | src/bnc/bncsessionclient.cpp:340-365 | EPRT likewise, with the client as the host when the address is empty |
| `Rewriting.OnlyInside` | src/bnc/bncsessionclient.cpp:133-154 | rewriting in place changes what is between the parentheses and nothing else |
| `Rewriting.ThrownExactly` | src/bnc/bncsessionclient.cpp:131-219 | a reply lets an exception through exactly when a field that must hold a number holds none that fits, or when the closing parenthesis is missing, a port was returned and the line is not replaced as a whole |
| `Rewriting.ThrowsWithoutEnd` | src/bnc/bncsessionclient.cpp:133-154 | 227 Entering Passive Mode 10,0,0,1,4,1 is such a reply: it is recognised and read, the sessions listen on a port, and then the exception goes through with the catch still set |
| `Rewriting.PasvRewritten` | src/bnc/bncsessionclient.cpp:131-154 | the rewritten 227 reads as our address and the port exactly when our address is a dotted quad |
| `Rewriting.EpsvRewritten` | src/bnc/bncsessionclient.cpp:168-211 | the rewritten 229 reads as the port, with family and interface address when the site gave an address |
| `Rewriting.PasvOverIpv6` | src/bnc/bncsessionclient.cpp:288-296 | PASV and CPSV to an IPv6 site go out as EPSV 2, and every 229 comes back as a 227 that reads as our IPv4 address and the port |
| `Rewriting.EpsvAcrossFamilies` | src/bnc/bncsessionclient.cpp:183-309 | for every 229 read: EPSV goes out for the family of the site, the session dials what the reply says, and it listens on the family the client asked for exactly when the reply leaves the address out, or the command was changed, or the address is of that family |
| `Rewriting.CommandRewritten` | src/bnc/bncsessionclient.cpp:311-365 | the site reads our address and port from a rewritten PORT or EPRT; a PORT sent as EPRT is answered as a PORT |
| `Rewriting.ReturnedPortHeld` | src/bnc/trafficbncsession.cpp:20-46 | the port returned is the listen port of a session of that pool now awaiting, and of no other |
| `Lockstep.FeedAnswers` | src/bnc/bncsessionclient.cpp:108-249 | a caught reply in any pieces is held back piece by piece and answered for as a whole, with the sessions as the last piece finds them |
| `Lockstep.CommandGoesOut` | src/bnc/bncsessionclient.cpp:270-310 | a command for a passive connection, in any pieces, goes out at once as planned, and only sets what is to be caught |
| `Lockstep.ReplyIsAnswered` | src/bnc/bncsessionclient.cpp:117-249 | every RFC 959 reply that announces a connection, in every split: nothing until the last piece; then the sessions are asked as in a step of the runs, one text is passed on, and nothing is caught any more |
| `Lockstep.PasvEndToEnd` | src/bnc/bncsessionclient.cpp:131-154 | from the command through the reply in pieces to what the client reads, in any state runs lead to: our address and a port that a session of its own pool, and no other, now listens on; and that session dials the host and port of the reply, or the site when its address is left out |
| `Lockstep.AnExchange` | src/bnc/bncsessionclient.cpp:131-154 | and from every start there is such an exchange: the first connection sends PASV, the site answers with 10,0,0,1,4,1, the client reads our address with the first port of the range, and 10.0.0.1:1025 is dialled |
| `Lockstep.PasvOverIpv6EndToEnd` | src/bnc/bncsessionclient.cpp:168-211 | the same for PASV and CPSV to an IPv6 site: EPSV 2 goes out, from the 229 in pieces the client reads a 227 with our IPv4 address and such a port, and what the 229 says is dialled |
| `Lockstep.EpsvEndToEnd` | src/bnc/bncsessionclient.cpp:168-211 | the same for EPSV: it goes out for the family of the site, the client reads such a port, with our address of the right family when the site gave one, and what the site said is dialled |
| `Lockstep.PortEndToEnd` | src/bnc/bncsessionclient.cpp:311-365 | for PORT and EPRT: what the site reads is our address towards it and a port that a session of that pool, and no other, now listens on; and that session dials the host and port of the command, or the client when EPRT names no host |
| `Conversations.OtherReply` | src/bnc/bncsessionclient.cpp:115-235 | a reply with another code, or that announces nothing readable, is passed on as it is and nobody is asked for a port |
| `Conversations.NoPortForReply` | src/bnc/bncsessionclient.cpp:152-166 | with no port left the client reads the 502 in place of the reply |
| `Conversations.NoPortForCommand` | src/bnc/bncsessionclient.cpp:330-358 | with no port left for PORT or EPRT the site gets NOOP, and whatever it answers the client reads the 502 |
| `Conversations.PortAlwaysSucceeds` | src/bnc/bncsessionclient.cpp:220-226 | to a PORT sent on as EPRT the client reads a success whatever the site answers |
| `Conversations.AuthTls` | src/bnc/bncsessionclient.cpp:125-130 | the first AUTH TLS or AUTH SSL and its reply pass as they are, and TLS begins exactly with a 234 |
| `Conversations.OtherCommand` | src/bnc/bncsessionclient.cpp:270-373 | any other command goes out as it is and changes nothing |
| `Conversations.PieceOfCommand` | src/bnc/bncsessionclient.cpp:275-277 | a piece of a command that does not end its line goes nowhere yet |
| `Queues.Semaphore.Post` | src/core/semaphore.h:12-16 | adds one |
| `Queues.Semaphore.Wait` | src/core/semaphore.h:17-23 | takes one, once there is one |
| `Queues.BlockingQueue.Push` | src/core/blockingqueue.h:13-18 | appends, keeping list, size and content semaphore equal |
| `Queues.BlockingQueue.Pop` | src/core/blockingqueue.h:19-26 | removes the front, keeping them equal |
| `Queues.BlockingQueue.Size` | src/core/blockingqueue.h:27-30 | is the length of the list |
| `Queues.SignalEvents.Set` | src/core/signalevents.cpp:13-30 | takes the first slot that is free or already holds the signal, and asks for a post only for a new one |
| `Queues.SignalEvents.HasEvent` | src/core/signalevents.cpp:32-35 | true exactly when some slot is set |
| `Queues.SignalEvents.GetClearFirst` | src/core/signalevents.cpp:37-50 | empties the first slot that is set |
| `Queues.SetAndTaken` | src/core/signalevents.cpp:13-50 | with nothing set, a signal that is set is the one that comes out, and then nothing is set |
| `Queues.SetOnce` | src/core/signalevents.cpp:13-30 | a signal that is set already, with no free slot before it, is not set twice |
| `WorkManager.WorkManager.DispatchFDData` | src/core/workmanager.cpp:41-49 | queues by any of the three priorities, posts, checks for overload and answers no exactly when the flag is set |
| `WorkManager.WorkManager.Overload` | src/core/workmanager.cpp:143-150 | 32 events in the high and data queues raise both flags |
| `WorkManager.WorkManager.LowPrioOverload` | src/core/workmanager.cpp:152-158 | 32 events in all queues raise the low flag only |
| `WorkManager.WorkManager.RunOnce` | src/core/workmanager.cpp:195-283 | a signal first, else the front of the high queue, or if that is empty of the data queue, or of the low one; flags cleared exactly when one is set and at most 8 events are left |
| `WorkManager.DispatchRuns` | src/core/workmanager.cpp:41-49 | in the interleaved model, a dispatch nobody comes between ends as the method does |
| `WorkManager.TurnRuns` | src/core/workmanager.cpp:195-283 | so does a turn of the worker |
| `Delivery.StepKeeps` | src/core/workmanager.cpp:41-283 | every atomic step of every thread, an overload answer nobody looks at included, keeps the whole invariant |
| `Delivery.RunKeeps` | src/core/workmanager.cpp:41-283 | so does every interleaving |
| `Delivery.OrderStep` | src/core/workmanager.cpp:208-218 | no step changes the order of a socket |
| `DeliveryGuarantees.WorkerNeverStuck` | src/core/workmanager.cpp:195-218 | no pop and no signal look-up ever finds nothing; the worker stops only for want of an event or for the lock, and then with nothing queued and no post to come |
| `DeliveryGuarantees.ReaderIsServed` | src/core/workmanager.cpp:34-39 | while the I/O thread waits for an external event, that one event is queued, in hand or acknowledged |
| `DeliveryGuarantees.DeliveredInOrder` | src/core/workmanager.cpp:41-101 | for each socket, what was delivered followed by what is in its high, data and low queues is what was dispatched, in order, though its priority drops |
| `DeliveryGuarantees.LoweredForGood` | src/core/iomanager.cpp:1048-1051 | once the priority of a socket has dropped, whatever is dispatched for it goes to the end of the low queue |
| `DeliveryGuarantees.NoLostWakeUp` | src/core/workmanager.cpp:271-280 | in every interleaving, while a socket is auto-paused a flag is set or the worker is between clearing the flags and the end of workerReady |
| `DeliveryGuarantees.PassUnpauses` | src/core/iomanager.cpp:1434-1456 | every run that takes the worker out of clearing the flags has a moment with nothing auto-paused, whatever the other threads do in between |
| `DeliveryGuarantees.IdleAndPaused` | src/core/workmanager.cpp:143-158 | something stays paused with nothing queued or in hand only if a flag was raised after everything counted for it had been handled |
| `DeliveryGuarantees.PausedExactlyLate` | src/core/workmanager.cpp:143-158 | and, over runs in which no socket is closed and every answer is heeded, whenever that happened |
| `DeliveryGuarantees.LateFlag` | src/core/workmanager.cpp:143-158 | and that does happen: from every start a run leads to a paused socket with the worker asleep |
| `DeliveryGuarantees.QueuedEventRecovers` | src/core/workmanager.cpp:271-280 | any queued event then has the worker un-pause everything by its own steps, after the signals that are set, which un-pause nothing |
| `DeliveryGuarantees.NextEventRecovers` | src/core/workmanager.cpp:51-55 | the event of another producer, such as the periodic tick, is one |
| `DeliveryGuarantees.NextDispatchRecovers` | src/core/workmanager.cpp:41-49 | so is an event of a socket, even if its own answer pauses that socket too |
| `DeliveryGuarantees.NextReadRecovers` | src/core/workmanager.cpp:34-39 | and the event of an external descriptor |
| `DataBlocks.DataBlockPool.GetBlock` | src/core/datablockpool.cpp:22-31 | hands out a block that was not out, allocating ten when none is left |
| `DataBlocks.DataBlockPool.ReturnBlock` | src/core/datablockpool.cpp:37-40 | takes back a block that was out |
| `DataBlocks.DataBlockPool.AllocateNewBlocks` | src/core/datablockpool.cpp:42-49 | adds ten new blocks and counts them |
| `DataBlocks.PendingConsume` | src/core/datablock.cpp:23-29 | consuming n bytes of the front block drops exactly the first n pending bytes |
| `Ownership.KeptPush` | src/core/iomanager.cpp:563-570 | queuing a filled block appends its bytes to the stream and gives it to that one queue |
| `Ownership.KeptPop` | src/core/iomanager.cpp:903-906 | a block written out leaves the queue and its bytes count as written |
| `Ownership.KeptConsume` | src/core/iomanager.cpp:899-902 | a partial write moves exactly the bytes taken from pending to written |
| `Ownership.KeptClose` | src/core/iomanager.cpp:617-620 | closing gives back exactly the blocks of that queue |
| `Writes.FlushTakes` | src/core/iomanager.cpp:883-911 | a flush takes off the queue exactly the bytes the answers of write() say were taken; it goes on only after an answer that took the whole front block, and fails exactly when the first other answer is an error |
| `Ownership.WrittenGrows` | src/core/iomanager.cpp:884-907 | with nothing sent, what was written has grown by what has left the queue |
| `SocketTable.OneFits` | src/core/iomanager.cpp:190-220 | a change confined to one socket and its descriptor leaves every other socket in agreement |
| `SocketTable.RegisterAcceptedKeeps` | src/core/iomanager.cpp:408-415 | registering for any id at any time keeps the agreement exactly when the socket is open and, if it is to be watched, does not wait for output and is not watched for it |
| `SocketTable.NegotiateKeeps` | src/core/iomanager.cpp:481-533 | starting a handshake on any id keeps it exactly unless a plain socket that does not listen by itself is already watched for input |
| `SocketTable.NegotiatedOutKeeps` | src/core/iomanager.cpp:957-1017 | going on with a handshake keeps it: data the flush left goes on being waited for |
| `SocketTable.NegotiatedInKeeps` | src/core/iomanager.cpp:918-955 | finishing a handshake with data queued turns to output |
| `SocketTable.ReadyKeeps` | src/core/iomanager.cpp:1434-1456 | after workerReady only sockets paused by hand are paused, and each one un-paused is watched in its recorded direction |
| `SocketTable.TickedTimer` | src/core/iomanager.cpp:157-188 | a tick adds 100 to a timer or closes its socket, exactly from 5000 on |
| `SocketTable.TickKeeps` | src/core/iomanager.cpp:157-188 | a tick keeps the agreement, timers within [0, 5000) included |
| `SocketRuns.ApplyKeeps` | src/core/iomanager.cpp:157-1493 | every operation that can happen keeps the agreement exactly when it is not one of two: registering for a socket that has gone or waits for output, or starting a handshake on one watched for input though it does not listen by itself |
| `SocketRuns.WatchedEarlyHappens` | src/core/iomanager.cpp:481-533 | a run leads to a state in which the handshake loses the agreement: recorded as waiting for output, watched for input |
| `SocketRuns.GoneBeforeRegistered` | src/core/iomanager.cpp:408-415 | a run leads to a state in which the registration loses it: the entry made has neither a type nor its own id |
| `SocketRuns.AlwaysAgrees` | src/core/iomanager.cpp:157-1493 | in every state that operations keeping the agreement lead to: paused exactly when in one of the two sets, the sets and timers within the map, timers exactly for resolving and connecting sockets, watched implies un-paused and in the recorded direction, what should be watched is watched, pending output waits for output |
| `SocketRuns.TimerAdvances` | src/core/iomanager.cpp:157-188 | however the operations of all sockets are mixed, a timer still there has advanced by 100 for every tick since its last reset, and seen fewer than fifty |
| `SocketRuns.TimesOut` | src/core/iomanager.cpp:157-188 | a timer that no operation on its own socket ends or resets is there exactly until the ticks of the run have used up its 5000 |
| `SocketRuns.NeverForever` | src/core/iomanager.cpp:157-314 | no run whatever keeps a socket resolving and connecting for a hundred ticks, since its timer is reset once at most |
| `SocketLaws.AutoPauseLasts` | src/core/iomanager.cpp:1458-1462 | from the moment an answer of the work manager pauses a socket, it is in the set, paused and not watched until the worker is ready or it is closed, whatever else happens |
| `SocketLaws.PauseLasts` | src/core/iomanager.cpp:1464-1475 | from the moment it is paused by hand, likewise until it is resumed by hand or closed |
| `SocketLaws.ResumeWakes` | src/core/iomanager.cpp:1477-1493 | resuming takes back the pause by hand alone: the socket is un-paused and watched exactly if it is not auto-paused |
| `SocketLaws.PauseResume` | src/core/iomanager.cpp:1464-1493 | a pause followed by a resume leaves everything as it was exactly when the socket was not paused by hand before and was watched, auto-paused, or without a descriptor |
| `SocketLaws.OwnStep` | src/core/iomanager.cpp:190-1493 | what every operation makes of its socket, field by field: type, queue, closing, flags and direction |
| `SocketLaws.OwnWatch` | src/core/iomanager.cpp:190-1493 | which operations have a socket watched, and which end that |
| `SocketLaws.OthersUntouched` | src/core/iomanager.cpp:190-1493 | no operation on one socket changes another |
| `SocketLaws.HowSocketsCome` | src/core/iomanager.cpp:237-433 | how sockets come: resolving with a timer at zero, listening and watched, or accepted with nobody to receive |
| `SocketLaws.HowSocketsGo` | src/core/iomanager.cpp:579-625 | exactly how they go: closed, a put-off close with nothing queued, or timed out |
| `HandlerLaws.ResolutionLaw` | src/core/iomanager.cpp:259-333 | a resolved name leads to a socket waiting for its connection with its timer at zero; any failure closes it and is told once |
| `HandlerLaws.ConnectionLaw` | src/core/iomanager.cpp:812-856 | a connection that stands is plain and has no timer, and goes at once if it was closing with nothing left to send |
| `HandlerLaws.ReadLaw` | src/core/iomanager.cpp:1019-1058 | every byte read is handed on, in pieces of 1 to 16384 bytes; the end of the connection is told once, and last |
| `HandlerLaws.AfterReadLaw` | src/core/iomanager.cpp:1019-1058 | after reading the socket is gone exactly at the end of the connection, lowered from the eighteenth block on, and paused exactly if it was or the last answer was no |
| `HandlerLaws.WriteLaw` | src/core/iomanager.cpp:883-916 | after writing it is gone after an error or a put-off close with everything taken, waits for input with everything taken, and each is told exactly once |
| `IOManager.IOManager.BlockInOnePlace` | src/core/datablockpool.cpp:22-49 | every block ever allocated is either on offer or at exactly one position of one send queue, and totalblocks counts them all |
| `IOManager.IOManager.constructor` | src/core/iomanager.cpp:88-101 | nothing is open, nothing queued |
| `IOManager.IOManager.CloseSocketIntern` | src/core/iomanager.cpp:598-625 | the socket leaves every collection and its blocks go back to the pool |
| `IOManager.IOManager.ReturnAll` | src/core/iomanager.cpp:617-620 | the loop returns every block of the queue |
| `IOManager.IOManager.CloseSocketNow` | src/core/iomanager.cpp:593-596 | closes at once |
| `IOManager.IOManager.CloseSocket` | src/core/iomanager.cpp:579-591 | closes at once with nothing queued, else once the queue is empty |
| `IOManager.IOManager.PollRead` | src/core/iomanager.cpp:190-195 | records the direction and adds the descriptor unless paused |
| `IOManager.IOManager.PollWrite` | src/core/iomanager.cpp:197-202 | likewise for output |
| `IOManager.IOManager.SetPollRead` | src/core/iomanager.cpp:204-209 | records the direction and changes it in the poller if watched |
| `IOManager.IOManager.SetPollWrite` | src/core/iomanager.cpp:211-216 | likewise for output |
| `IOManager.IOManager.SendData` | src/core/iomanager.cpp:554-577 | the stream grows by exactly the data, cut into full blocks; an established socket waits for output; the answer tells whether a megabyte is queued |
| `IOManager.IOManager.QueueAll` | src/core/iomanager.cpp:563-570 | the loop of sendData, over heap blocks |
| `IOManager.IOManager.FillBlock` | src/core/iomanager.cpp:564-566 | fills a block nobody else has |
| `IOManager.IOManager.PopFront` | src/core/iomanager.cpp:904-905 | a whole front block counts as written, with the bytes it really holds, and goes back to the pool |
| `IOManager.IOManager.ConsumeFront` | src/core/iomanager.cpp:899-902 | the part taken counts as written, with the bytes it really holds |
| `IOManager.IOManager.FlushQueue` | src/core/iomanager.cpp:884-907 | the loop of the out-handlers: what was written grows by exactly what the answers say was taken, and only an answer that took the whole front block lets it go on |
| `IOManager.IOManager.WriteOut` | src/core/iomanager.cpp:883-916 | what both out-handlers do: what was written grows by the sum of the answers, written followed by pending stays what was sent, a close put off happens exactly with everything taken, and an error closes |
| `IOManager.IOManager.HandleTCPPlainOut` | src/core/iomanager.cpp:883-916 | the plain writes: then input again, unless called before a handshake, or an error |
| `IOManager.IOManager.HandleTCPSSLOut` | src/core/iomanager.cpp:1060-1090 | the same for TLS |
| `IOManager.IOManager.RegisterTCPClientSocket` | src/core/iomanager.cpp:227-257 | a new id, a timer at zero, and the resolution at once for a numeric address |
| `IOManager.IOManager.HandleTCPNameResolution` | src/core/iomanager.cpp:259-333 | connecting with a fresh timer, or closed with a notice |
| `IOManager.IOManager.AsyncTaskComplete` | src/core/iomanager.cpp:680-689 | the same later, unless the socket has gone |
| `IOManager.IOManager.RegisterListener` | src/core/iomanager.cpp:335-474 | a new watched listener, or -1 with a notice |
| `IOManager.IOManager.RegisterTCPServerClientSocket` | src/core/iomanager.cpp:408-415 | for any id: the socket has a receiver and is watched if told to, an entry of no type is made for an id that is not open, and the invariant holds afterwards exactly under the condition of RegisterAcceptedKeeps |
| `IOManager.IOManager.HandleTCPConnectingOut` | src/core/iomanager.cpp:812-856 | connected, closed, or failed; the timer ends |
| `IOManager.IOManager.HandleTCPPlainIn` | src/core/iomanager.cpp:858-881 | data, and after a refused answer the socket is in the set, paused and not watched; end or error closes |
| `IOManager.IOManager.HandleTCPSSLIn` | src/core/iomanager.cpp:1019-1058 | full blocks whose answers are ignored, a last partial one whose answer pauses, low priority from the eighteenth block on |
| `IOManager.IOManager.ReadBlock` | src/core/iomanager.cpp:1023-1046 | the inner loop fills a block whatever the sizes of the reads |
| `IOManager.IOManager.HandleTCPServerIn` | src/core/iomanager.cpp:1098-1147 | a new entry nobody receives for yet; the listener is auto-paused when the work manager says so |
| `IOManager.IOManager.NegotiateSSL` | src/core/iomanager.cpp:481-533 | for any id: a plain connection turns to its handshake and waits for output, and the invariant holds afterwards exactly under the condition of NegotiateKeeps |
| `IOManager.IOManager.HandleTCPSSLNegotiationOut` | src/core/iomanager.cpp:957-1017 | what is queued is flushed first; exactly when that closes the socket the reference is dangling; else done, unfinished or refused |
| `IOManager.IOManager.HandleTCPSSLNegotiationIn` | src/core/iomanager.cpp:918-955 | done, unfinished or refused; queued data waits for output |
| `IOManager.IOManager.AutoPause` | src/core/iomanager.cpp:1458-1462 | the socket is in the set, paused and not watched, and nothing else changes |
| `IOManager.IOManager.Pause` | src/core/iomanager.cpp:1464-1475 | paused by hand, once |
| `IOManager.IOManager.Resume` | src/core/iomanager.cpp:1477-1493 | un-paused and watched, unless auto-paused |
| `IOManager.IOManager.WorkerReady` | src/core/iomanager.cpp:1434-1456 | un-pauses exactly the auto-paused sockets not paused by hand, and empties the set |
| `IOManager.IOManager.Tick` | src/core/iomanager.cpp:157-188 | closes exactly the sockets whose timers run out, with exactly one notice for each of those not closing and no other event; the clean-up loop ends because timers belong to open sockets |
| `IOManager.IOManager.AdvanceTimers` | src/core/iomanager.cpp:160-167 | the first loop advances every timer once |

## Left out

- `WorkManager::flushEventReceiver`, `preStop`, `stop` and the STOP socket: they take events out without their tokens.
- Real sockets, `getaddrinfo`, interface lookup, OpenSSL, the logger and process control: foreign calls, whose results are parameters.
- Fairness and liveness of threads: only what every interleaving keeps, and what some interleaving leads to.
- `AsyncWorker` and `TickPoke`: producers like any other in `Delivery`.
- The receive pool: a block read into travels with its event, and returns to the pool with its delivery.
- UDP input, `adopt`, linger, stored TLS sessions and the getters: nothing but look-ups and library calls.
- IOManager.IOManager.HandleTCPSSLNegotiationOut: what the source does with a socket its own flush has closed is not defined, and not modelled.
- SocketRuns.AlwaysAgrees: over the operations that keep the agreement, which ApplyKeeps says exactly; nothing is claimed of what follows one that does not.
- DeliveryGuarantees.PausedExactlyLate: over runs in which no socket is closed and every answer is heeded; of the others only IdleAndPaused, since such a flag may pause nothing.
- IOManager.IOManager.HandleTCPNameResolution: a failure after the descriptor is made closes at once, so the descriptor does not appear in between.
- IOManager.IOManager.HandleTCPSSLIn: the code behind the endless loop, which is not reached.
- `SocketInfo` and `DataBlock` are values in the maps and lists of the source, so they are values here; references to an entry held across calls are not modelled.
- TrafficBnc.Sockets.RegisterTCPServerSocket: the I/O manager as these sessions use it, ids and open listening sockets only.
- `PasvConn` and `PortConn`: forwarding data and their pause flags, which are set and cleared as in BncSessionClient.FDData and SendComplete.
- BncSessionClient.BncSessionClient.FDData: the pool of sessions and the allocator are values here, which TrafficBncSessions.Activate is proved to change in the same way; TLS beyond starting it is left out.
- BncSessionClient.BncSessionClient.SendData: PORT or EPRT alone, where the source reads past the words, has the outcome Undefined.
- Lockstep.PasvEndToEnd: a client that waits for each reply, as the catches are made for; nothing is claimed of a second command sent before the reply to the first.
- `BncSession`, `Ident` and `Bnc`: no order of early bytes is claimed.
- ResponseParser.FTPResponseParser.Parse: what the 550 test reads behind the text comes from the rest of the buffer, and is NUL behind its end; chunks are not empty.
- ListenPorts.ListenPortManager.SetPortRange: ports are not negative, and the first is below the last, as the source asserts.
- Times, buffer sizes and socket ids do not wrap round.
- Addresses.AddressRoundTrip: printing with the family mark; `parseAddresses`, which splits a list, is left out.
- Configuration, `Crypto`, `util::split` to a list and `trim`, and the build: easy or library-bound.
