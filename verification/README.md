# ZNC: proofs about its parsers, protocols and state machines

This project models the parts of ZNC that hold intricate logic of their own and proves what they
promise. Each component is written twice where the original updates state: once as a class whose
methods follow the C++ statement by statement, and once as a function on values that the methods are
proved equal to; the theorems are about that function, over all inputs and all runs. What the
function says of a single line, letter, message or packet is stated once more in terms of characters,
positions and numbers only.

| file | component |
|---|---|
| `Common.dfy`, `Strings.dfy`, `Octets.dfy`, `Multimap.dfy`, `OrderedSets.dfy` | optional values and sequences, the `CString` primitives, bytes, `std::map` of vectors, the visiting order of `std::set` |
| `Files.dfy` | `CFile`: a descriptor with a read buffer, `read` returning pieces of any size |
| `ConfigModel.dfy` | the configuration parser as a stack machine, a recursive reader, the grammar of documents, the invariant of the three maps |
| `ConfigSyntax.dfy`, `ConfigRoundTrip.dfy`, `ConfigReload.dfy` | lines and comments, printing, and exactly which configurations survive being written and read |
| `ConfigLines.dfy` | what each line of a file means, by characters and positions |
| `ConfigFile.dfy` | `CConfig::Parse` and `CConfig::Write` over a file |
| `Base64.dfy`, `Sasl.dfy`, `SaslLogins.dfy`, `SaslModule.dfy` | SASL on client connections (framing, reassembly, refusals; who has authenticated and what each message does), and the sasl module's negotiation with a server |
| `Caps.dfy` | packing capability names into lines, capability requests |
| `Router.dfy`, `RouterWire.dfy` | the scheduler of `route_replies`, and the scheduler together with the server that answers its requests |
| `ChanModes.dfy`, `ChanLetters.dfy` | the channel mode interpreter and its printer, and what a mode line does by the positions of its letters |
| `CtcpFlood.dfy`, `CertAuth.dfy`, `Paths.dfy`, `Alias.dfy`, `AliasText.dfy` | rate limiter, two-way key index, path resolution, template substitution |
| `Servers.dfy` | server lines: parsing, printing, order |
| `DccSend.dfy`, `DccSteps.dfy`, `DccTransfer.dfy` | DCC transfers: one socket, its single steps, and two of them sending a file to each other |
| `BounceDcc.dfy` | bounced DCC connections: paired sockets with back-pressure |

## Main results

* **Configuration files.** The stack machine of `CConfig::Parse` and a recursive reader agree on
  every file, tree or error and line (`StackMachineIsReader`); a file is accepted exactly when it is
  a properly nested document without repeated names (`AcceptedIffDocument`). Writing and reading
  back gives the same configuration **if and only if** it is well-formed (`ReloadsIffWellFormed`).
  For every text that loads, saving and loading it again gives the same configuration **if and only
  if** no key looks like a comment or forms a tag with its value and no carriage return has got into
  a key, a value, a tag or a name (`SavedFileReloads`); with carriage returns only at line ends, the
  first half of that is enough (`SavedTextReloads`). Both failures occur: the line `=#=v` loads as
  the key `#`, which is written back as a comment (`CommentKeyIsLost`), and a carriage return inside
  a block name is kept by loading and removed by saving (`ReturnIsLost`).
* **SASL.** The chunker's lines reassemble to the payload, dispatched once, on the last line, if the
  encoding fits. If it is too long the exchange is aborted; for texts of any length something is
  dispatched **if and only if** the text fits, or a full line behind an abort is the name of a
  mechanism on offer and what is behind that line fits (`DispatchedIff`, without verdicts on the
  way; `LongFramesIff` as a condition on the lines alone). Over every run of messages, verdicts and
  capability changes the session invariant holds, a refused mechanism is never dispatched to or
  refused again, and the user is the one last accepted since the last login (`UserIs`).
* **Reply router.** Over every run nothing is lost, repeated or reordered, one request is
  outstanding at most, and nothing waits while nothing is in progress. With the server answering in
  the order of the requests: over every run in which no request is given up and no other message
  looks like a reply, every reply reaches the client that issued the request it answers
  (`RepliesReach`). In any state a reply goes astray **if and only if** the module takes it for a
  reply to the request in progress and it answers a request of another client, or none
  (`MisroutesIff`). That happens: after a timeout or a disconnect the late answer reaches the client
  served next, exactly when its request could get such an answer (`LateAnswerGoesAstray`;
  `TimeoutMisroutes` is a run with two `WHO`), where a comment of the original has such replies
  broadcast to everyone. Of the clients that wait, the one that comes first in the map of queues
  (ordered by address in the original) is always served next (`SendServesLeast`), so it can keep
  another one waiting for any number of requests (`Starves`); while nobody in front of a client asks
  again, the client is served once more requests have ended than were waiting in front of it
  (`ServedInTime`). How far the server is behind changes by one exactly when either side alone is
  done with a request (`RunLag`), so replies can go on reaching the wrong client until the server has
  caught up.
* **Channel modes.** `SetModes(GetModeString())` restores the mode map **if and only if** the
  letters can be set and the printed arguments line up (`RestoredIffRestorable`). A mode, or a
  permission of a nick, is there after any line exactly if the last sign in front of the last letter
  for it is a plus (`ModesMean`, `PermsMean`).
* **DCC transfers.** The receiver always holds a prefix of the file. From whatever offset a transfer
  is resumed and however much each read of the file returns, the receiver holds the whole file
  whenever nothing is left to arrive, **if and only if** no read ends in the last 64 KiB below 4 GiB
  without being the last (`CompletesIff`): there the 32-bit sum in the window test wraps, and a
  transfer acknowledged packet by packet stops. On the same condition, and no other, every run
  whatsoever can be continued until the receiver has the whole file (`FinishesIff`). From the
  beginning and in whole packets these are exactly the files of at most 4 GiB - 64 KiB
  (`WholeFileCompletesIff`); the original accepts files up to 4 GiB - 1.
* **Bounced DCC.** Peer links of live sockets are symmetric and never dangle; what leaves one socket
  is the beginning of what its peer read; no write buffer grows beyond the limit and one read. The
  original passes the chat flag where the constructor expects the timeout, so the two sockets of a
  bounced chat are raw sockets as well, and these results cover them.
* **sasl module.** The mechanisms are asked for once each in the configured order, and the pause of
  capability negotiation is balanced by one resumption, as `IRCSock.h` asks, **if and only if**
  exactly one numeric ends the negotiation: an abort never resumes it, a success reported twice
  resumes it twice.
* **ctcpflood.** At most 2(M - 1) messages pass in any interval of T seconds, for all runs of up to
  n messages, **if and only if** n < 2^32 + M - 1: then the wrapping 32-bit counter lets messages
  through (`BoundedIff`). Once the clock has passed T the bound is 2(M - 1) - 1, which is reached,
  and holds for all runs of up to n messages **if and only if** n < 2^32 + M - 2 (`LateBoundedIff`).
  While no pause is longer than T nothing passes **if and only if** the counter does not wrap
  (`BlockedRun`).
* **certauth, paths, alias, server lines.** The two key maps stay exact inverses and a stored set of
  keys reloads if and only if its users exist and no key is empty or has a space; paths are accepted
  exactly when they resolve strictly below the directory with names compared without regard to case
  (`CheckedIffBelow`), so all accepted paths really lie below it **if and only if** no name on the
  way to it has an ASCII letter (`ConfinesIff`): `/a` lets paths below `/A` in; templates are
  substituted as their grammar says and fail exactly on a missing required word; a server is read
  back from its line if and only if it is one of the kept ones, which can be seen on the line it
  came from (`ReparseIsStable`), and the order of servers is a strict total order.

## Model

| member | source | states |
|---|---|---|
| Files.CFile.ReadLine | src/FileUtils.cpp:384-420 | however `read` chops the file, a call returns the next delimiter-terminated piece of what remains, or the unterminated rest; a read error can only cut a piece short |
| Files.CFile.Seek | src/FileUtils.cpp:306-317 | seeking, beyond the end of the file too, moves the descriptor and forgets the buffer; nothing changes on failure |
| Files.ConcatPieces | src/FileUtils.cpp:384-420 | the pieces that successive calls return concatenate to the file |
| Files.PiecesShape | src/FileUtils.cpp:393-416 | every piece is nonempty and has the delimiter exactly at its end; only the last may lack it |
| Multimap.LessTotal | include/znc/Config.h:40-43 | the key order of the maps is total and antisymmetric |
| Multimap.LessAt | include/znc/Config.h:40-43 | the first character that differs decides |
| Multimap.LessPrefix | include/znc/Config.h:40-43 | without one, the shorter key comes first |
| Multimap.InsertSorted | src/Config.cpp:161 | pushing a value keeps the map in key order |
| Multimap.InsertValues | src/Config.cpp:160-161 | pushing a value appends it to the values of its key and changes no other key |
| ConfigModel.StackMachineIsReader | src/Config.cpp:51-175 | the line machine with its explicit stack and a recursive-descent reader give the same tree, or the same error on the same line, for every sequence of lines |
| ConfigModel.RunIsReading | src/Config.cpp:54-140 | the same from any stack: running over a block body is reading it into the active configuration and going on after it |
| ConfigModel.AcceptedIffDocument | src/Config.cpp:93-174 | a file parses to a tree exactly when its lines are a properly nested document with matching tags and no repeated name under a tag, and comments are closed; the tree is that of the document |
| ConfigInvariant.AddSubConsistent | include/znc/Config.h:64-74 | adding a block with a new name keeps the name sets equal to the names present |
| ConfigInvariant.RunConsistent | src/Config.cpp:126-135 | in every configuration any file parses to, at every depth, the maps are ordered, the name sets are exactly the names in the sub-configurations, and no name repeats under a tag |
| ConfigSyntax.EntryReadBack | src/Config.cpp:146-161 | a printed entry is read as that entry if and only if its key is a trimmed, lower-case, single-line key that does not begin like a comment, the value is nonempty, and the two do not look like a tag |
| ConfigSyntax.OpenPrinted | src/Config.cpp:195-197 | a printed opening tag is read as that opening tag |
| ConfigSyntax.ClosePrinted | src/Config.cpp:199 | a printed closing tag is read as that closing tag |
| ConfigSyntax.OpenImage | src/Config.cpp:94-139 | whatever tag and name an opening line yields can be printed and read again |
| ConfigSyntax.EntryImage | src/Config.cpp:146-161 | whatever key and value a line yields satisfies all conditions for being read back except those on how the line begins |
| ConfigRoundTrip.PiecesOfText | src/Config.cpp:184-201 | reading a printed text line by line gives exactly the printed lines |
| ConfigRoundTrip.TextsReadAs | src/Config.cpp:177-202 | the printed lines of a well-formed configuration are read as the lines of its document, at any indentation |
| ConfigRoundTrip.Rebuild | src/Config.cpp:126-135 | adding up the document of a well-formed configuration gives that configuration, maps and name sets included |
| ConfigRoundTrip.WellFormedReloads | src/Config.cpp:51-202 | a well-formed configuration, nested to any depth, survives being written and parsed, leading blanks of values included |
| ConfigReload.ReloadsIffWellFormed | src/Config.cpp:51-202 | writing at any indentation and parsing gives back the configuration if and only if it is well-formed |
| ConfigReload.ParsedIsClean | src/Config.cpp:78-161 | in a configuration parsed from any lines, every key, value, tag and name is trimmed and lower-case as printing needs it and free of the line ends its line, once trimmed, is free of, and the maps are consistent |
| ConfigReload.TextsYield | src/Config.cpp:184-201 | printed lines are read as at most as many entries as the configuration holds, and as exactly that many only if every entry at every depth is one that is read back |
| ConfigReload.SavedFileReloads | src/Config.cpp:51-202 | any file that loads can be saved and loaded again if and only if, at every depth, no entry's key looks like a comment or forms a tag with its value, and no key, value, tag or name has a carriage return in it |
| ConfigReload.SavedTextReloads | src/Config.cpp:78-161 | for a file with carriage returns at most at line ends, if and only if no entry's key looks like a comment or forms a tag with its value |
| ConfigReload.CommentKeyIsLost | src/Config.cpp:88-91 | a file that loads and does not survive being saved: the key `#` |
| ConfigReload.ReturnIsLost | src/Config.cpp:78-139 | others: every tag or name with a carriage return inside loads and is lost by saving, although every entry is a good one |
| ConfigLines.CleanIs | src/Config.cpp:77-79 | the blanks in front of a line and the line ends behind it are removed, all of them and nothing else |
| ConfigLines.LineMeans | src/Config.cpp:88-161 | every line outside comments is ignored, a tag, an entry or a particular error, told from its characters |
| ConfigLines.FileMeans | src/Config.cpp:81-91 | a line is inside a block comment exactly if some line up to it begins one and no line from there to just before it ends one; lines inside are skipped, all others read as above; the same at the end of the file |
| ConfigFile.CConfig.AddSubConfig | include/znc/Config.h:64-74 | adds the block exactly when its name is new under the tag, and says so |
| ConfigFile.CConfig.TakeLine | src/Config.cpp:77-162 | one round of the loop is one step of the machine; every error leaves all three maps empty |
| ConfigFile.CConfig.Parse | src/Config.cpp:51-175 | parsing a file gives the outcome of its lines; any error leaves all three maps empty; a file that is not open changes nothing |
| ConfigFile.ParsesOnTop | src/Config.cpp:51-175 | parsing adds the document to what the configuration already holds |
| ConfigFile.CConfig.Write | src/Config.cpp:177-202 | what is written is the printed form of the configuration |
| ConfigFile.WriteConfig | src/Config.cpp:177-202 | the same for the recursion into sub-configurations |
| ConfigFile.SaveAndLoad | src/Config.cpp:51-202 | writing into an empty file object and parsing that object gives the configuration back if and only if it is well-formed, unless a read fails |
| Base64.DecodeEncode | src/ZNCString.cpp:1022-1124 | decoding undoes encoding for every byte string |
| Base64.EncodeLength | src/ZNCString.cpp:1022-1081 | an encoding is four characters for every three bytes begun |
| Base64.DigitIs | src/ZNCString.cpp:1022-1081 | the alphabet of section 4 of RFC 4648 |
| Base64.EncodeBits | src/ZNCString.cpp:1022-1081 | three bytes are four characters of six bits, the most significant first; fewer at the end are followed by zero bits and padding |
| Base64.EncodePadded | src/ZNCString.cpp:1022-1081 | its length is a multiple of four |
| Base64.DecodeMeans | src/ZNCString.cpp:1083-1124 | any text, padded, cut short or outside the alphabet: what each group of characters decodes to |
| Base64.OnlyDigits | src/ZNCString.cpp:1083-1124 | exactly the characters of the alphabet have a value |
| Base64.LineEndsIgnored | src/ZNCString.cpp:1085-1087 | line ends are ignored wherever they stand |
| Sasl.SendChunks | modules/sasl.cpp:206-215 | the chunk loop sends full lines, then a shorter one, `+` if that would be empty |
| SaslLogins.ChunksAre | modules/sasl.cpp:206-215 | line by line: 400 characters each, and as the last one what is left, or a plus |
| Sasl.ChunkIsNoControl | src/Client.cpp:1250-1254 | a line of base64 is neither `*` nor `+` |
| Sasl.FramesReassemble | src/Client.cpp:1311-1333 | the lines of a response that fits are buffered without output, and the last one dispatches everything received, decoded, once |
| Sasl.PayloadArrives | src/Client.cpp:1232-1333 | a payload whose encoding is at most 10240 characters reaches the mechanism whole, in exactly one dispatch |
| Sasl.LongFramesAbort | src/Client.cpp:1311-1314 | a response longer than that is aborted; none of its lines is dispatched, provided no full line behind the one that aborts is the name of a mechanism on offer when it arrives |
| Sasl.LongPayloadAborts | src/Client.cpp:1311-1314 | the same for the chunks of an encoded payload |
| Sasl.DispatchedIff | src/Client.cpp:1262-1333 | for texts of any length and no verdicts on the way: something is dispatched exactly when what has been received fits, or a full line behind an abort starts a mechanism and what is behind it fits, and so on |
| Sasl.LongFramesIff | src/Client.cpp:1262-1333 | for a text that is too long, with at most one response and a line behind the line that aborts: something is dispatched exactly when a full line behind it is a name on offer that has not been refused |
| Sasl.OfferedLineDispatches | src/Client.cpp:1262-1333 | for example: a line that is such a name, directly behind the one that aborts, starts that mechanism, and the rest is dispatched to it |
| Sasl.RunInv | src/Client.cpp:1232-1360 | between messages of any run: the buffer is a multiple of 400 and at most 10000 long, empty when no mechanism is in progress; none is once somebody has authenticated; the one in progress has not been refused |
| Sasl.RunNoRetry | src/Client.cpp:1262-1271 | in any run, nothing is dispatched to a refused mechanism, and no named mechanism is refused twice |
| Sasl.NoSecondAttempt | src/Client.cpp:1342-1346 | read off the outputs: after a refusal no later output dispatches to or refuses the same mechanism |
| Sasl.ConnectionIsSafe | src/Client.cpp:1232-1360 | so on every connection from its start: the invariant holds after every run of events, and nothing after a refusal dispatches to or refuses that mechanism |
| SaslLogins.UserIs | src/Client.cpp:1351-1360 | on every connection the user is the one in the last acceptance among the outputs since the last login, and nobody if there is none |
| SaslLogins.NoSecondLogin | src/Client.cpp:1238-1241 | once somebody has authenticated or logged in, every message is answered with 907 and changes nothing |
| SaslLogins.RefusedIs | src/Client.cpp:1342-1349 | the mechanisms that cannot be tried again are those in the outputs that say so |
| SaslLogins.VerdictsMean | src/Client.cpp:1342-1360 | verdicts are followed one after the other: an acceptance names the user, a refusal the mechanism, both end the exchange |
| SaslLogins.ExchangeEnds | src/Client.cpp:1250-1314 | what aborts an exchange or begins none, with its numerics |
| SaslLogins.ExchangeBegins | src/Client.cpp:1262-1309 | a name on offer begins that mechanism; the verdicts are followed, then the challenge goes out unless a module has answered |
| SaslLogins.ExchangeGoesOn | src/Client.cpp:1311-1333 | a full line is kept, a shorter one, of which a plus stands for nothing, dispatches everything |
| SaslLogins.OtherEvents | src/Client.cpp:876-947 | giving up the capability and ending negotiation abort an exchange that is going on, a login ends it silently |
| Sasl.Client.OnAuthenticateMessage | src/Client.cpp:1232-1333 | the handler does what the session function says, outputs included |
| Sasl.Client.StartMechanism | src/Client.cpp:1262-1309 | starting a mechanism: refused, unknown, or begun with a challenge |
| Sasl.Client.ContinueResponse | src/Client.cpp:1311-1332 | continuing a response: too long, buffered, or dispatched |
| Sasl.Client.SendSASLChallenge | src/Client.cpp:1218-1230 | a challenge goes out as its chunks |
| Sasl.Client.AbortSASL | src/Client.cpp:1335-1340 | aborting forgets mechanism and buffer |
| Sasl.Client.RefuseSASLLogin | src/Client.cpp:1342-1349 | refusing remembers the mechanism |
| Sasl.Client.AcceptSASLLogin | src/Client.cpp:1351-1360 | accepting sets the user and ends the exchange |
| Sasl.Client.AcceptLogin | src/Client.cpp:474-479 | logging in clears the whole SASL state |
| Sasl.Client.OnCapRequest | src/Client.cpp:876-884 | dropping the capability aborts an exchange in progress |
| Sasl.Client.OnCapEnd | src/Client.cpp:941-947 | ending negotiation aborts an exchange in progress |
| SaslModule.CSASLMod.OnServerCapResult | modules/sasl.cpp:222-240 | an accepted capability pauses negotiation and asks for the first mechanism |
| SaslModule.CSASLMod.OnNumericMessage | modules/sasl.cpp:250-292 | the handler does what the state function says |
| SaslModule.NumericMeans | modules/sasl.cpp:250-292 | each numeric by its number: what is sent, which mechanism is next, who is sent away |
| SaslModule.EventMeans | modules/sasl.cpp:222-240 | the same for the capability and the connection |
| SaslModule.StaysAuthenticated | modules/sasl.cpp:222-292 | over every run without a disconnect, only a success authenticates, and who is authenticated stays so and is not sent away |
| SaslModule.RunAccounts | modules/sasl.cpp:250-292 | over any numerics: each failure asks for the next mechanism while there is one, each success and each failure after the last resumes negotiation, a success is what authenticates; the index never leaves the list |
| SaslModule.Negotiation | modules/sasl.cpp:222-292 | the mechanisms asked for are the first configured ones in order, once each; the pause is balanced by one resumption if and only if exactly one numeric ends the negotiation (include/znc/IRCSock.h asks for balance) |
| SaslModule.AbortNeverResumes | modules/sasl.cpp:278-281 | an aborted exchange (906) leaves negotiation paused, for every configuration |
| SaslModule.TwoSuccessesResumeTwice | modules/sasl.cpp:255-292 | 903 followed by 907 resumes it twice |
| Caps.MultiLine | src/Client.cpp:818-832 | the lines are the names in order, at most 401 characters unless a single name is longer, and no name begins a line that would have fitted on the line before |
| Caps.PackedSplits | src/Client.cpp:929-940 | splitting the lines on spaces gives back the names |
| Caps.CapState.Request | src/Client.cpp:955-1000 | granted exactly if every name can be switched on and every name behind a minus sign off; then each capability is as the last token that mentions it says, and unmentioned ones as before; otherwise nothing changes |
| Caps.LastMentionDecides | src/Client.cpp:981-998 | the last token that mentions a capability decides whether it is accepted |
| Router.RouteReplies.SendRequest | modules/route_replies.cpp:418-450 | the recursion over empty queues ends and does what the scheduling function says |
| Router.RouteReplies.RouteReply | modules/route_replies.cpp:400-416 | a reply goes to the current client; the last one makes room for the next request |
| Router.RouteReplies.OnRawMessage | modules/route_replies.cpp:279-310 | a server message is taken exactly when it was routed |
| Router.RouteReplies.OnUserRawMessage | modules/route_replies.cpp:312-368 | a message is taken exactly if it is, on a connected network, one of the listed requests, a MODE with exactly one of I, b, e, +I, +b, +e behind the channel, or a TOPIC that sets nothing; it is then queued, otherwise nothing changes |
| Router.RoutableIs | modules/route_replies.cpp:319-365 | the same for the function behind it, the replies being those of the table |
| Router.AnswersMean | modules/route_replies.cpp:279-310 | which server messages answer a request and which end the answer: by the first entry of its table with that command, case ignored, or as 461 with the request's own command |
| Router.RoutesEnd | modules/route_replies.cpp:26-200 | every request that is routed has a reply that ends it |
| Router.RouteReplies.OnClientDisconnect | modules/route_replies.cpp:261-277 | the handler does what the state function says |
| Router.RouteReplies.OnIRCConnected | modules/route_replies.cpp:248-259 | everything is forgotten |
| Router.RouteReplies.OnTimeout | modules/route_replies.cpp:370-397 | the outstanding request is given up and the next one sent |
| Router.RunInv | modules/route_replies.cpp:248-450 | after every event of every run: current client, expected replies and timer are there together or not at all, and nothing in progress means nothing waiting |
| Router.NothingLost | modules/route_replies.cpp:357-365 | in every run, what a client's requests sent to the server, followed by its queue, is what was accepted from it since it last started afresh, in order |
| Router.RunTrace | modules/route_replies.cpp:400-450 | in every run, a request goes out only when none is outstanding, and whatever is routed is a reply that the outstanding request could get and goes to its client; which request the server meant is the subject of RouterWire |
| Router.SendServesLeast | modules/route_replies.cpp:424-450 | the request sent next is the oldest one of the client that comes first in the queue map among those that have one waiting; none is sent only if none waits |
| Router.Starves | modules/route_replies.cpp:418-450 | a client that asks again before each answer keeps a later one waiting for any number of completed requests |
| Router.ServedInTime | modules/route_replies.cpp:400-450 | in every run in which no client in front of it asks and it stays connected, a waiting client is served before more requests have ended than were waiting in front of it |
| RouterWire.RunWireInv | modules/route_replies.cpp:248-450 | in every run of the module and the server, whatever has been given up and gone astray, the request in progress is the last one the server has to answer |
| RouterWire.MisroutesIff | modules/route_replies.cpp:279-310 | in any state, a client is handed a reply that is not to a request of its own exactly when the message could be a reply to the request in progress and answers a request of another client or none |
| RouterWire.CleanIff | modules/route_replies.cpp:261-397 | that only the request in progress is unanswered remains so exactly until a request is given up (timeout, disconnect) or ended by a message that is no reply |
| RouterWire.RepliesReach | modules/route_replies.cpp:279-416 | over every run in which that does not happen, every reply reaches the client that issued the request it answers, as what it is, and nothing else is handed to anybody |
| RouterWire.RunLag | modules/route_replies.cpp:248-450 | over every run on one connection, the number of requests the server is behind changes by how many the module is done with less how many the server is done with, so it lasts until the server catches up |
| RouterWire.CleanRunIff | modules/route_replies.cpp:248-450 | a run from a clean state ends in one if and only if both are done equally often |
| RouterWire.LateAnswerGoesAstray | modules/route_replies.cpp:261-277 | the answer to a request that was given up goes astray exactly when another client's request is in progress by then that could get this answer |
| RouterWire.TimeoutMisroutes | modules/route_replies.cpp:370-397 | a run in which it does: two clients ask WHO, the first request times out, and the end of its answer reaches the second client |
| Router.DisconnectedIsGone | modules/route_replies.cpp:261-277 | a disconnected client is neither being served nor waiting |
| Router.AnswerReachesClient | modules/route_replies.cpp:279-310 | a complete answer reaches the client that asked, whole and in order, and then the next request goes out |
| ChanModes.CChan.GetModeString | src/Chan.cpp:235-246 | the printed string lists the letters in order and the nonempty arguments behind them |
| ChanLetters.PrintedModes | src/Chan.cpp:235-246 | no modes print as nothing, others as a plus, each letter once in ascending order, and the nonempty arguments |
| ChanModes.CChan.ModeChangeArgs | src/Chan.cpp:307-442 | the loop interprets the letters from left to right, arguments consumed in order |
| ChanModes.CChan.ModeChange | src/Chan.cpp:444-468 | the line is cut into letters and arguments, a colon taking the rest |
| ChanModes.CChan.SetModes | src/Chan.cpp:262-265 | modes are cleared, then changed |
| ChanModes.CChan.ChangeLetter | src/Chan.cpp:397-440 | one mode with its argument, the channel key included |
| ChanModes.CChan.ChangePerm | src/Chan.cpp:341-363 | one permission of a nick, and of this user if it is theirs |
| ChanModes.LinedUpReadsBack | src/Chan.cpp:326-439 | values that line up are given back to their letters |
| ChanModes.OnlyLinedUpReadsBack | src/Chan.cpp:444-465 | and only those |
| ChanModes.RestoredIffRestorable | src/Chan.cpp:235-468 | setting the printed modes restores the mode map if and only if every letter can be set and is no blank, letters without argument have none, and the other values are space-free, do not begin with a colon, and are empty only behind all nonempty ones |
| ChanModes.ColonKeyIsLost | src/Chan.cpp:444-465 | a channel key that begins with a colon is not restored |
| ChanLetters.ModesMean | src/Chan.cpp:307-440 | a mode is set exactly if the last sign in front of its last letter is a plus, with the argument that letter takes; a mode without a letter stays as it was |
| ChanLetters.PermsMean | src/Chan.cpp:341-363 | a nick, and this user, has a permission exactly if the last sign in front of the last letter that names both is a plus; without such a letter nothing changes |
| ChanLetters.KeyMeans | src/Chan.cpp:397-440 | exactly which letters change the channel key, and to what |
| ChanLetters.ArgsMean | src/Chan.cpp:444-465 | one argument for each word, the rest of the line for one that begins with a colon |
| ChanLetters.LineMeans | src/Chan.cpp:444-468 | the letters are the first word of the line, behind a colon without arguments |
| CtcpFlood.CtcpFloodMod.Message | modules/ctcpflood.cpp:62-83 | the handler forwards and counts as the step function says |
| CtcpFlood.MessageMeans | modules/ctcpflood.cpp:62-83 | actions pass uncounted; a message after a longer pause begins a new window; one that does not pass begins it anew |
| CtcpFlood.ActionIs | modules/ctcpflood.cpp:63-64 | actions are told by their first word, case ignored |
| CtcpFlood.CtcpFloodMod.constructor | modules/ctcpflood.cpp:45-60 | thresholds from arguments, else storage, else defaults, never zero |
| CtcpFlood.RateBound | modules/ctcpflood.cpp:62-83 | in any run of fewer than 2^32 + M - 1 messages with a monotone clock, a closed interval of T seconds contains at most 2(M - 1) forwarded ones |
| CtcpFlood.BoundedIff | modules/ctcpflood.cpp:62-83 | that number is exact: the bound holds for all runs of at most n messages if and only if n is below it |
| CtcpFlood.BurstOverBound | modules/ctcpflood.cpp:71-82 | a burst of 2^32 + M - 1 messages at one moment of which 2M - 1 pass |
| CtcpFlood.SharperRateBound | modules/ctcpflood.cpp:66-74 | once the clock has passed T, in any run of fewer than 2^32 + M - 2 messages, at most 2(M - 1) - 1 |
| CtcpFlood.LateBoundedIff | modules/ctcpflood.cpp:66-74 | that number is exact: the sharper bound holds for all late runs of at most n messages if and only if n is below it |
| CtcpFlood.LateBurstOverBound | modules/ctcpflood.cpp:71-82 | a burst of 2^32 + M - 2 messages at second T + 1 of which 2M - 2 pass |
| CtcpFlood.BoundIsReached | modules/ctcpflood.cpp:66-74 | a run that reaches it, for all thresholds |
| CtcpFlood.BlockingContinues | modules/ctcpflood.cpp:71-82 | a message while blocked is blocked exactly when no longer pause came before it and the counter does not wrap |
| CtcpFlood.BlockedRun | modules/ctcpflood.cpp:79-82 | while no pause is longer than T, nothing passes if and only if the counter does not reach 2^32 |
| CertAuth.CertAuthMod.AddKey | modules/certauth.cpp:96-107 | the key is added to both maps, nothing else changes, and the store is updated if it was new |
| CertAuth.CertAuthMod.DelKey | modules/certauth.cpp:109-127 | the key is removed from both maps, emptied sets with it |
| CertAuth.CertAuthMod.HandleDelCommand | modules/certauth.cpp:291-324 | the key with that number in the shown order is removed, exactly when the number is valid |
| CertAuth.CertAuthMod.OnBoot | modules/certauth.cpp:45-72 | the stored keys of existing users are added, nothing else changes |
| CertAuth.CertAuthMod.Migrate | modules/certauth.cpp:190-201 | exactly the existing users of the SHA-1 key get the SHA-256 key instead |
| CertAuth.CertAuthMod.OnLoginAttempt | modules/certauth.cpp:129-170 | accepted exactly when the existing user has either key; a SHA-1 key is replaced |
| CertAuth.CertAuthMod.OnClientSASLAuthenticate | modules/certauth.cpp:176-233 | the verdict in terms of the maps: an empty request is for the first holder, the answer about a missing user comes in exactly the cases where that holder, or the user asked for, is gone; the empty-list branch is unreachable |
| CertAuth.ReloadsIffStorable | modules/certauth.cpp:45-94 | storing and loading gives back the same relation if and only if all users exist and every key is nonempty and space-free |
| CertAuth.SpacedKeyIsLost | modules/certauth.cpp:45-94 | a key with a space is stored and comes back as two others |
| Paths.ChangeDir | src/FileUtils.cpp:532-575 | the character loop walks the components, for any base and home |
| Paths.ChangedResolves | src/FileUtils.cpp:532-575 | for a normalised base and home, `..` drops a component, `.` and empty ones do nothing, the root stays the root, and the result is normalised |
| Paths.CheckPathPrefix | src/FileUtils.cpp:577-584 | the check as a function of the resolved path |
| Paths.CollapseFirst | src/FileUtils.cpp:579 | what the prefix makes of a path with repeated slashes: the first two that come together become one, and so on behind them |
| Paths.CheckedAtRoot | src/FileUtils.cpp:577-584 | for the root every path is accepted, the root itself included |
| Paths.CheckedIffBelow | src/FileUtils.cpp:577-584 | for a directory other than the root, a path is accepted exactly when its components lie strictly below it, case ignored, and then the resolved path is returned |
| Paths.CaseSiblingAccepted | src/FileUtils.cpp:577-584 | a path below a directory that differs from the given one in case only is accepted, although it does not lie below it |
| Paths.ConfinesIff | src/FileUtils.cpp:577-584 | every accepted path begins with the directory and a slash, letter by letter, if and only if no component of the directory has an ASCII letter |
| Alias.ParseToken | modules/alias.cpp:95-150 | exactly the references of the grammar are taken, although the number conversion accepts more; a missing required word fails; anything else is left to be skipped |
| Alias.ConvertDigits | modules/alias.cpp:110-121 | where the conversion and the grammar agree |
| Alias.Imprint | modules/alias.cpp:153-188 | the loop ends and evaluates the template from left to right |
| Alias.SourceIsText | modules/alias.cpp:171-187 | the parts of the template concatenate to its text, so a malformed percent sign is copied as it stands |
| Alias.FailsIffMissing | modules/alias.cpp:138-141 | imprinting fails exactly when a required word is missing, and names the first |
| AliasText.WrittenIsRead | modules/alias.cpp:95-133 | where a percent sign, perhaps a question mark, digits of at most 2^31 - 1, perhaps a plus and a percent sign stand, that reference is read |
| AliasText.ReadIsWritten | modules/alias.cpp:95-133 | and only there |
| AliasText.ReferenceMeans | modules/alias.cpp:135-187 | a reference becomes the word of that number, or all from it on; without it, and unless it may be missing, imprinting fails and names it |
| AliasText.StrayPercent | modules/alias.cpp:171-187 | a percent sign that begins no reference is kept |
| AliasText.PlainText | modules/alias.cpp:153-188 | text without percent signs comes out as it is |
| Servers.PortReadBack | src/ZNCString.cpp:1259-1261 | a port survives printing and conversion |
| Servers.StrToULIs | src/ZNCString.cpp:1259-1261 | the conversion behind blanks, a sign and zeros, saturating and wrapping at 2^64 |
| Servers.NoNumber | src/ZNCString.cpp:1259-1261 | without digits it gives zero |
| Servers.PrintedAs | src/Server.cpp:39-49 | the printed form field by field, with and without the password |
| Servers.PortGiven | src/Server.cpp:19-25 | a port that is not given is 6667 |
| Servers.ReadBackIffKept | src/Server.cpp:39-76 | a server is read back from its printed line if and only if its name has no space, does not begin like the other kind of address, its port and password are ones a line can hold |
| Servers.ParsedIsKept | src/Server.cpp:51-76 | what a line is read as is such a server, except from a blank line or a socket path that looks like the TLS mark |
| Servers.ReparseIsStable | src/Server.cpp:39-76 | printing what a line was read as and reading it again gives the same server if and only if the line is neither blank nor a plain socket path with blanks between the scheme and what looks like the TLS mark |
| Servers.UnstableSocket | src/Server.cpp:39-76 | such a line: `unix: ssl:x` is read without TLS and printed with it |
| Servers.PrecedesTotal | src/Server.cpp:78-99 | `operator<` holds in at most one direction, and in neither exactly when all fields agree |
| Servers.PrecedesTransitive | src/Server.cpp:87-99 | it is transitive |
| DccSend.CDCCSock.SendPacket | modules/dcc.cpp:470-517 | the method does what the value function says: closed file, full write buffer, read error, end of file, packet |
| DccSend.CDCCSock.ReadData | modules/dcc.cpp:337-380 | both directions, the acknowledgement loop included |
| DccSend.CDCCSock.Seek | modules/dcc.cpp:606-615 | a resumed transfer moves file and counter together |
| DccSteps.SendMeans | modules/dcc.cpp:470-517 | one packet: which bytes of the file, how many, and when none |
| DccSteps.GotIs | modules/dcc.cpp:495-496 | a packet is 4096 bytes, or what is left, or what the system gives |
| DccSteps.ReceiveMeans | modules/dcc.cpp:370-379 | bytes that arrive are stored, counted and acknowledged, and the socket closes at the size of the file |
| DccSteps.AcknowledgeMeans | modules/dcc.cpp:352-369 | acknowledgements in order, each of four bytes, each at most 64 KiB behind in 32-bit arithmetic bringing a packet |
| DccSteps.StoreMeans | modules/dcc.cpp:371 | byte by byte what writing at a position does |
| DccSteps.BytesAre | modules/dcc.cpp:373-374 | the most significant byte first |
| DccSend.WordOfBytes | modules/dcc.cpp:360-362 | an acknowledgement in network order decodes to its value modulo 2^32 |
| DccSend.FragmentsAgree | modules/dcc.cpp:357-369 | acknowledgements are handled the same however their bytes are split over reads |
| DccSend.RunSends | modules/dcc.cpp:352-369 | over any run the bytes written are the slice of the file from the start to the counter, which never exceeds max(start, highest acknowledgement + 65536) + 4096 |
| DccSend.WindowOpenIff | modules/dcc.cpp:364-366 | for acknowledgements of data that was sent, the 32-bit test is the intended one except in the last 64 KiB below 4 GiB |
| DccTransfer.RunGood | modules/dcc.cpp:337-517 | in every reachable state of a transfer the receiver holds a prefix, the sender is at most a window and a packet ahead, acknowledgements are whole and honest, and quiet means settled |
| DccTransfer.TransferArrives | modules/dcc.cpp:337-517 | from any offset, at every moment the receiver holds a prefix; with nothing left to arrive, the whole file or the counter in the last 64 KiB |
| DccTransfer.AcksArriveTogether | modules/dcc.cpp:357-369 | delivering acknowledgements byte by byte is delivering them in one read |
| DccTransfer.LockStep | modules/dcc.cpp:364-366 | the run in which each packet is acknowledged before the next reaches the end of every read of the file before the last, up to the wrap |
| DccTransfer.CompletesIff | modules/dcc.cpp:352-369 | for every file the sender accepts, every offset and every way the reads of the file turn out without failing: every quiet run is complete if and only if no read but the last ends in the last 64 KiB below 4 GiB |
| DccTransfer.ComesToRest | modules/dcc.cpp:337-517 | every reachable state in which no read has failed can be continued until nothing is left to arrive |
| DccTransfer.QuietIsFinal | modules/dcc.cpp:337-517 | and nothing happens after that |
| DccTransfer.FinishesIff | modules/dcc.cpp:352-369 | after any events the receiver can still get the whole file, if and only if no read but the last ends in the last 64 KiB below 4 GiB |
| DccTransfer.WholeFileCompletesIff | modules/dcc.cpp:352-369 | from the beginning and in whole packets, those are exactly the files of at most 4 GiB - 64 KiB |
| BounceDcc.CDCCBounce.ReadData | modules/bouncedcc.cpp:390-402 | what is read goes to the peer; reading pauses at 10240 waiting bytes |
| BounceDcc.CDCCBounce.ReadPaused | modules/bouncedcc.cpp:404-408 | reading goes on exactly without peer or with at most 2048 waiting bytes |
| BounceDcc.CDCCBounce.Shutdown | modules/bouncedcc.cpp:480-484 | the link is cut and the socket closes |
| BounceDcc.CDCCBounce.Destroy | modules/bouncedcc.cpp:365-370 | a destroyed socket cuts its peer's link and closes it |
| BounceDcc.CDCCBounce.GetSockObj | modules/bouncedcc.cpp:486-511 | the listener closes and two linked raw sockets take over; the chat flag ends up as their timeout |
| BounceDcc.CBounceDCCMod.Accept | modules/bouncedcc.cpp:486-511 | links of all live sockets stay symmetric, flows stay intact |
| BounceDcc.CBounceDCCMod.Arrive | modules/bouncedcc.cpp:390-402 | the same when bytes arrive |
| BounceDcc.CBounceDCCMod.Delete | modules/bouncedcc.cpp:365-370 | no live socket refers to a deleted one |
| BounceDcc.CBounceDCCMod.Serve | modules/bouncedcc.cpp:365-511 | so after any run in any order |
| BounceDcc.Relayed | modules/bouncedcc.cpp:390-408 | what has left a socket is the beginning of what its peer read, at most 10240 bytes and one read behind |

## Left out

* NUL bytes inside strings: the original's `Token` compares C strings; strings here hold any
  characters, and case folding is ASCII folding.
* Texts of messages, errors and status lines; errors are values.
* Sockets, timers, locks and the event loop: `read`, the draining of write buffers, the clock, timer
  expiry and disconnections are inputs. Writes to files and sockets succeed.
* Module hooks: what modules answer (mechanisms, challenges, verdicts, supported capabilities) is an
  input.
* Values are unbounded where the original has 64-bit counters; 32-bit and 16-bit ones are modelled
  with their wrap-around.
* The Csock library is not part of this model: that it neither reads from paused sockets nor calls a
  handler of a closed one is taken from how the handlers are written.
* The `NAMES` splitter and nick bookkeeping of `src/Chan.cpp`, and the mode hooks: they add no state
  that the mode map depends on.
* The destructor of `route_replies`, which flushes all queues.
* How an IRC server answers: in RouterWire it answers requests in order, each reply being one of the
  table of its request; everything else it says is an unsolicited message.
* The receiving side of a resumed transfer: the module does not resume what it receives, so the
  receiver starts with the part before the offset, as another program would.
* `CAP LS` and `CAP LIST`: everything but the packing of names into lines.
* `StartSASLPasswordCheck` and the authentication modules behind it.
* Command front ends, web interface, translations, scripting bridges, cryptography.
- Sasl.DispatchedIff: assumes that no verdict is given at any line but the last, since one would end or change the exchange half-way.
- Sasl.LongFramesIff: the same assumption; for longer texts, in which a started mechanism can be aborted again, see Sasl.DispatchedIff.
- DccSend.FragmentsAgree: is about senders only, since a receiver answers every read and so writes more acknowledgements for more fragments.
- Paths.CheckedIffBelow: is about normalised directories, as the configuration of the original has them; for the root see Paths.CheckedAtRoot.
