# Auction server: model and proofs

The repository is an auction server and its client, in C. The server keeps a database as a
tree of files, serves short requests on UDP from one thread and auction requests on TCP from a
pool of workers fed by a bounded queue, and closes expired auctions lazily: some handler has to
call `update_database`. This project models that in Dafny and proves what the design relies on.

How the model is built:

- `Text`, `Names`: C strings, `strtok`, printed and padded numbers, validators, directory scans
  in `alphasort` order.
- `Store`: the file tree as maps and sets, and every database function as one function on that
  value. `Database`: the same functions as methods that change fields in place and read the
  stored lines token by token, each proved equal to its function in `Store`.
- `Handlers`: the request handlers as functions on the database, one clock reading each.
  `UdpHandlers`, `TcpHandlers`: the handlers as methods, from the bytes received to the bytes
  sent, each proved to do what its function says. `UdpServer`: the turn of the UDP thread around them, from the datagram received to the one
  sent. `AssetDelivery`: a stored file on its way to a client, on both sides.
- `Runs`, `RunInvariants`, `ClientView`, `LazyExpiry`: runs in which each handler runs whole,
  with a clock that does not go back: what every run keeps, what clients learn, and the
  comparison of lazy and eager closing.
- `Verdicts`, `History`, `Promises`: the reply to every request of every run, told from the
  requests and replies before it alone, without the database: who has registered, logged in,
  opened, bid and closed what. `Verdicts` reads the checks off one database, `History` proves
  that the database after a run is what its log says, `Promises` puts them together, a lemma
  for each of the eleven commands.
- `Interleaved`: the same server with any number of workers and the UDP thread, every step one
  critical section, and what still holds then. `Levels`: a thread alone gives the reply and
  leaves the database of its handler in one piece, so every run above is one of these
  interleavings. `Races`: exactly when a write overwrites a bid, follows the END, rewrites it
  or comes past the deadline, and runs in which it does.
- `TasksQueue`, `QueueProtocol`: the ring buffer, and the monitor around it with sleeping, woken
  and signalling threads and spurious wakeups.
- `Transfer`, `Readers`, `Records`, `RecordReply`, `Lists`, `Envelopes`: the asset transfer, the
  byte-by-byte readers, the stored lines, and the replies with the client's parsers. `Wire`:
  every line, reply and command letter by letter. `Heads`: which bytes are taken for a command.

Seven results are not what one would expect:

- An auction may be opened under an empty name, or with a line feed in its file name. Its START
  line cannot be read back: nothing ever closes it, and no bid on it is ever recorded
  (`Records.StartReads`, `RunInvariants.UnsoundStaysOpen`). A reply differs from that of a
  server which closes on time if and only if the request looks at such an auction past its
  deadline (`LazyExpiry.LazyRefinesEager`); runs in which one does are
  `LazyExpiry.ForgottenAuction`.
- `update_database` keeps the start time in an `int`. Its expiry test is right at all times if
  and only if the START line can be read back and either the start is below 2^31 or the time
  active is 0 (`LazyExpiry.ExpiryRightExactly`); behind an auction opened later the very next
  list differs (`LazyExpiry.LateStartTells`).
- The table of error messages is one short in its check. Over every run a UDP request ends the
  server if and only if it asks for the record of an ill-formed number or of an auction that
  cannot be read back (`UdpServer.RequestsThatStop`). The client understands every other answer
  to a list or a record but one: that the user asking for his bids is not logged in
  (`ClientView.RecognisedExactly`).
- A transfer with bytes behind its line feed is accepted or refused by the way the network cuts
  the stream (`Transfer.AcceptedIff`, `Transfer.LongStreamDependsOnSplit`).
- `get_last_bid` and `bid`, `is_auction_finished` and the writes behind it, are separate critical
  sections. A bid overwrites a file if and only if another worker writes the same value between
  the two, a write follows the END if and only if a close, or an update of the overdue
  auction, lies between, and it comes past the deadline if and only if the clock passes that
  between the worker's update and the write (`Races.OverwritesExactly`,
  `Races.WritesAfterEndExactly`, `Races.LateExactly`). All of it happens, from a server just
  started (`Races.RivalsFromBoot` and the four lemmas named `...Happen` and `...Happens`).
- BID never looks at the last byte of its head: beside what the client prints it takes four more
  texts, with a space too many or a NUL (`Heads.BidExactly`); CLS, LIN, LOU and UNR and
  the head of OPA take nothing but the printed text.
- A directory the operating system refuses while an auction is created leaves the number taken:
  the invariant of the database breaks exactly then, and a restart mends it exactly when it was
  the auction's own directory (`Store.CreateWithCore`).

## Model

| member | source | states |
|---|---|---|
| Text.AidNumber | server/database.c:300-308 | reading a three-digit AID and printing it padded gives the same directory name |
| Names.PaddedOrderIsNumeric | server/database.c:457-474 | on zero-padded names lexicographic order is numeric order, both ways |
| Names.ScanIsNumeric | server/database.c:1199-1209 | a sorted scan of padded names is `.`, `..` and the numbers in ascending order |
| Names.Scandir | server/database.c:1199 | lists exactly the directory's names and the two dot entries, sorted |
| Names.LastIsMax | server/database.c:1207-1209 | the last entry of the listing is the largest number |
| Store.CounterDecides | server/database.c:78-99 | with ids exactly 1..count, the counter decides membership and a restart recovers it |
| Store.CreateCore | server/database.c:955-1080 | creating an auction, or failing to, keeps ids, indexes, users and bids in order |
| Store.CreateWithCore | server/database.c:797-840 | the same for every refusal of the operating system: the invariant holds afterwards if and only if no directory was refused or there are 999 auctions already; otherwise the counter admits an auction without START, and a restart corrects it if and only if there is no directory to count |
| Store.RecordCore | server/database.c:1220-1333 | recording an allowed bid keeps them in order, even when it overwrites a file |
| Store.RegisterCore | server/database.c:644-736 | registering, also again, keeps HOSTED exact and BIDDED covering |
| Store.LoginsCore | server/database.c:604-642 | logging in and out and unregistering keep a login implying a password; what they do to the logins is History.LoginsAreHistory |
| Database.Database.InitDatabase | server/database.c:37-76 | the files found on disk, and the counter a count of them gives |
| Database.Database.LoadDbState | server/database.c:78-99 | the counter becomes the number of auction directories, nothing else changes |
| Database.Database.UpdateDatabase | server/database.c:104-253 | every directory's START line is re-read and exactly the expired auctions without END get start + time active as END |
| Database.Database.CreateAuctionDir | server/database.c:796-840 | at most 999 auctions; otherwise the next number and an empty directory; when a directory is refused the number stays taken |
| Database.Database.CreateNewAuction | server/database.c:955-1080 | all or nothing behind the directories: a file or clock refused, a failed transfer or a missing index directory is rolled back to exactly the old database; when an open is accepted is Promises.OpenAnswered |
| Database.Database.RollbackAuctionDirCreation | server/database.c:842-953 | removes the newest directory with everything in it and takes the number back |
| Database.Database.GetAuctionInfo | server/database.c:327-351 | the START line, cut at the buffer |
| Database.Database.CloseAuction | server/database.c:1082-1189 | END gets the clock and the seconds since the start read back from the START line |
| Database.Database.GetLastBid | server/database.c:1191-1218 | the numeric maximum of the recorded values, 0 for none, -1 without a directory |
| Database.Database.Bid | server/database.c:1220-1333 | one bid file under the padded value, then the bidder's index |
| Database.Database.StatusList | server/database.c:402-449 | the entries of all ids in ascending order and a line feed; the count returned is the number of bytes appended |
| Database.Database.GetAuctionBiddersList | server/database.c:451-602 | the min(50, k) largest bids ascending, re-read from their files, END if there is one, line feed; the count is the bytes appended |
| Handlers.HandleCore | server/tcp.c:136-846 | every handler keeps ids 1..count, HOSTED exact, BIDDED covering, login implying password, bids legal |
| UdpHandlers.ServeList | server/udp.c:384-413 | after the update, the list reply; the length is exactly the text's |
| UdpHandlers.ServeMyAuctions | server/udp.c:255-317 | the same over HOSTED, behind the user checks |
| UdpHandlers.ServeMyBids | server/udp.c:323-381 | the same over BIDDED |
| UdpHandlers.ServeShowRecord | server/udp.c:416-551 | header from the START line, bids, END; the length covers all but a second line feed |
| UdpServer.ServeDatagram | server/server.c:68-138 | every datagram: `ERR` for none of the commands, otherwise database and bytes of the handler's reply, its error message from the table, or the end of the process |
| UdpServer.ErrorAnswers | server/udp_command_table.c:30-68 | the error message of each command, and none for SRC and LST |
| UdpServer.RequestsThatStop | server/udp.c:40-46 | over every run a UDP request ends the process if and only if it is SRC of an ill-formed number or of an auction that cannot be read back |
| UdpServer.UdpCommandRoundTrip | client/udp.c:49 | each of the seven commands as the client prints it fits the server's 20 bytes and is the request meant |
| TcpHandlers.ReadOpen | server/tcp.c:145-256 | what the bytes before the asset say, as a request |
| TcpHandlers.ServeOpen | server/tcp.c:136-315 | any byte stream and any split: reply and database are those of the parsed request; a cut-off request changes nothing |
| TcpHandlers.ServeClose | server/tcp.c:317-475 | the same for CLS, checks in the order of the code |
| TcpHandlers.ServeBid | server/tcp.c:622-846 | the same for BID |
| TcpHandlers.OpenCommandRoundTrip | client/tcp.c:117-135 | header printed and file sent by the client, over every split, are the request meant, the file identical |
| TcpHandlers.CloseCommandRoundTrip | client/tcp.c:308 | the CLS command is the request meant |
| TcpHandlers.BidCommandRoundTrip | client/tcp.c:664-667 | the BID command is the request meant |
| RunInvariants.RunKeepsCore | server/database.c:1064-1066 | every reachable database: ids 1..count at most 999, HOSTED(u) the auctions u owns, BIDDED covering, bids above the start value and not the owner's |
| RunInvariants.RunKeepsTimely | server/database.c:1132-1171 | of every auction opened before 2^31: bids rise with time, lie in [0, time active), at or before the END; the END is at most the time active |
| RunInvariants.RunKeepsShut | server/database.c:184-198 | of every auction opened later: no bids, and an END that counts the whole time |
| RunInvariants.RunKeepsBidded | server/database.c:1317-1324 | BIDDED(u) is exactly the set of auctions with a bid by u |
| RunInvariants.RunMovesForward | server/tcp.c:792-832 | between two points of a run STARTs and ENDs never change, no bid is lost or overwritten, none follows the END, later bids are higher |
| RunInvariants.AcceptedIsNewMaximum | server/tcp.c:809-832 | an accepted bid is above all recorded ones and is what `get_last_bid` returns next |
| RunInvariants.AcceptedBidsIncrease | server/tcp.c:817-832 | accepted bids of an auction strictly increase |
| RunInvariants.ZeroMeansNoBids | server/database.c:1207-1209 | the 0 of `get_last_bid` stands for no bids, if and only if |
| RunInvariants.RestartRecovers | server/database.c:300-308 | after any run a restart finds the same counter, and `exists_auction` decides membership |
| RunInvariants.HandleKeepsReady | server/tcp.c:136-846 | what the handler methods require, every handler keeps; beside the invariants that is a clock of at most ten digits |
| RunInvariants.UnsoundStaysOpen | utils/validators.c:74-88 | an auction with an empty name or a line feed in its file name never gets an END or a bid, over every run |
| LazyExpiry.AdvanceSettles | server/database.c:195-234 | closing second by second does what closing at once at the end does |
| LazyExpiry.AdvanceIsUpdate | server/database.c:195-234 | where no auction that cannot be read back is past its deadline, one late update does what closing second by second does |
| LazyExpiry.EagerIsLazySettled | server/database.c:195-234 | along every run the eager database is the lazy one with everything overdue closed |
| LazyExpiry.LazyRefinesEager | server/database.c:104-253 | every reply of every run is the eager server's, if and only if the request does not look at an auction past its deadline whose START line cannot be read back; needs every auction opened before 2^31 |
| LazyExpiry.SoundRunsCannotTell | server/tcp.c:384 | while every auction in the database can be read back every reply is the same, whatever opens were refused |
| LazyExpiry.ListsTell | server/udp.c:384-413 | with one that cannot be read back past its deadline the lists differ |
| LazyExpiry.ForgottenAuction | utils/validators.c:74-88 | for either kind, a run of a login, an accepted open and a list, where they do |
| LazyExpiry.LateStartTells | server/database.c:184-198 | behind an auction opened at 2^31 or later, with time to run, the very next list differs |
| LazyExpiry.ExpiryRightExactly | server/database.c:157-198 | the expiry test is right at all times if and only if the START line can be read back and either the start fits in 32 bits or there is no time to run |
| ClientView.RecordsAreTrue | client/udp.c:552-747 | every record sent shows the top bids in order of value and time with a fitting END, and the client recovers each word and number of them in its place |
| ClientView.ListsAreTrue | server/udp.c:384-413 | with every auction opened before 2^31, entry k of every list is auction k + 1, active if and only if it is not closed and, if its START line can be read back, not past its deadline |
| ClientView.ListsAreReceived | client/udp.c:263-368 | the client reads that list off a reply of at most 6001 bytes |
| ClientView.MyAuctionsAreTrue | server/udp.c:255-317 | over every run a user's own list is exactly the auctions whose START names the user, active if and only if running |
| ClientView.MyBidsAreTrue | server/udp.c:323-381 | and the list of bids is exactly the auctions that hold a bid of theirs |
| ClientView.OwnListsAreReceived | client/udp.c:384-500 | the client reads either list number by number |
| ClientView.RecordsReadBack | client/udp.c:552-747 | over every interleaving a record shows the highest bids under the auction's own header, and the client recovers each word and number if and only if the numbers fit six digits |
| ClientView.ListsReadBack | server/database.c:402-449 | over every interleaving a list shows every auction with its state when it was read, and the client recovers it |
| ClientView.RecognisedExactly | client/udp.c:804-816 | over every run the client recognises what comes back to LST, LMA, LMB and SRC if and only if it is not `RMB NLG` |
| History.LoginsAreHistory | server/database.c:604-642 | over every run a user is logged in if and only if some RLI OK or RLI REG of theirs has no RLO OK and no RUR OK of theirs behind it |
| History.LoggedInUntil | server/udp.c:108-114 | from a successful login until the next logout or unregister of the same user they are logged in |
| History.LoggedOutUntil | server/udp.c:175-181 | from a successful logout or unregister until the next login they are not |
| History.OthersStay | server/database.c:604-642 | no event changes the login of a user other than the one it names |
| History.PasswordsAreHistory | server/database.c:644-736 | over every run a password authenticates if and only if a RLI REG registered it and no RUR OK came behind |
| History.RegisteredPasswordWorks | server/udp.c:89-117 | from a registration to the next unregister exactly the registered password authenticates |
| History.NobodyAfterUnregister | server/udp.c:241-251 | from a successful unregister to the next registration no password authenticates |
| History.OffersAreHistory | server/database.c:955-1080 | over every run the auctions are exactly those an open was answered with |
| History.StartIsHistory | server/database.c:1009-1010 | START and asset are what that open sent |
| History.BidsAreHistory | server/database.c:1220-1333 | over every run the recorded values are exactly the accepted ones |
| History.BidFileIsHistory | server/database.c:1299-1312 | each with its bidder, the instant it was accepted at and the seconds since the opening |
| History.EndsAreHistory | server/database.c:1132-1171 | an auction closed by its owner has the END of that close; any other has none, or that of its deadline once time is up |
| Promises.LoginAnswered | server/udp.c:57-118 | LIN over every run: REG, NOK or OK, told from the log alone |
| Promises.LogoutAnswered | server/udp.c:121-183 | LOU: UNR, NOK or OK, told from the log alone |
| Promises.UnregisterAnswered | server/udp.c:188-253 | UNR: UNR, NOK or OK, told from the log alone |
| Promises.OpenAnswered | server/tcp.c:136-315 | OPA is accepted under the next number if and only if all fields are well formed, the start value is not 999999, the size is 1 to 10^7, the user is logged in with the password, fewer than 999 opens came before and the file arrived; every refusal with its reply |
| Promises.CloseAnswered | server/tcp.c:317-475 | CLS: the seven verdicts, told from the log and the clock |
| Promises.BidAnswered | server/tcp.c:622-846 | BID: the ten verdicts; accepted if and only if all checks pass and the value is above the start value and every bid accepted before |
| Promises.ListAnswered | server/udp.c:384-413 | LST: exactly the auctions opened so far, ascending, active if and only if neither closed nor out of time |
| Promises.MyAuctionsAnswered | server/udp.c:255-317 | LMA: the same for exactly the auctions the user opened |
| Promises.MyBidsAnswered | server/udp.c:323-381 | LMB: the same for exactly the auctions with an accepted bid of the user |
| Promises.RecordAnswered | server/udp.c:416-551 | SRC: the auction as it was opened, all accepted bids or the fifty highest with bidder, instant and offset, and the END due |
| Promises.RecordSeen | server/udp.c:531-533 | what the client shows of it: each word of the open in its place, start value and time active as numbers, date and time of the opening |
| Promises.AssetAnswered | server/tcp.c:477-620 | SAS: the file of that open under its name, or NOK |
| Promises.SignedOutUserRefused | server/tcp.c:258-282 | no OPA, CLS or BID of a user who is not logged in by the log succeeds |
| Interleaved.EveryInterleavingIsSafe | server/tcp.c:760-835 | over all interleavings of critical sections: ids, HOSTED, BIDDED, users and legal bids; bids and ENDs carry instants not ahead of the clock, with offsets counted from the opening |
| Interleaved.NothingIsWithdrawn | server/database.c:1267-1300 | recorded values only grow, an END is never withdrawn, a START never changes |
| Interleaved.AcceptedExceedsSeen | server/tcp.c:810-832 | an accepted bid exceeds every value recorded when its worker ran `get_last_bid` |
| Interleaved.RegisteredAuthenticates | server/udp.c:89-117 | passwords work under every interleaving with the workers |
| Interleaved.NobodyAuthenticates | server/udp.c:241-251 | nor does any password from an unregister to the next registration, under every interleaving |
| Levels.WorkerAlone | server/tcp.c:136-846 | a worker that runs through its sections alone gives the reply of the whole handler and leaves its database, for OPA, CLS, BID and SAS |
| Levels.UdpAlone | server/udp.c:57-551 | so does the UDP thread, for all seven requests |
| Levels.EveryRunIsAnInterleaving | server/server.c:28-140 | every handler-at-a-time run is one of the interleavings from a server just started: behind each event the same database, clock and reply |
| Races.ExecSeen | server/tcp.c:760-835 | over any interleaving a value is recorded, an auction finished, if and only if it was before or one of the named steps wrote it |
| Races.OverwritesExactly | server/tcp.c:810-832 | a bid overwrites a file if and only if another worker writes the same value between its read and its write |
| Races.WritesAfterEndExactly | server/tcp.c:439-453 | a bid follows the END, a close rewrites it, if and only if a close or an update while overdue lies between its check and its write |
| Races.LateExactly | server/tcp.c:720-832 | what a worker writes, bid or END, lies at or past the deadline if and only if the clock passes the deadline between the worker's update and the write |
| Races.EqualBidsHappen | server/tcp.c:810-832 | two equal bids that would each be accepted: a run that records the first and then replaces its file by the second's |
| Races.BidAfterEndHappens | server/tcp.c:793-832 | a close and a bid that would each succeed: the bid can be recorded after the END |
| Races.EndRewrittenHappens | server/tcp.c:439-453 | two closes that would each succeed can write two different ENDs |
| Races.LateHappens | server/tcp.c:793-832 | a bid or a close that would succeed can be written past the deadline |
| Races.RivalsFromBoot | server/tcp.c:760-835 | a run from a server just started reaches a state in which all of these happen |
| TasksQueue.PutAppends | server/tasks_queue.c:76-108 | putting appends to the FIFO and overwrites no queued task |
| TasksQueue.TakeRemoves | server/tasks_queue.c:110-138 | taking removes exactly the oldest task |
| TasksQueue.Queue.InitQueue | server/tasks_queue.c:23-49 | an empty ring over an array twice its capacity |
| TasksQueue.Queue.Enqueue | server/tasks_queue.c:76-108 | one pass through the critical section: appended, or full and unchanged |
| TasksQueue.Queue.Dequeue | server/tasks_queue.c:110-138 | the oldest task, or empty and unchanged |
| QueueProtocol.StepKeepsInv | server/tasks_queue.c:76-138 | every step of any thread keeps the FIFO history and the wakeup accounting |
| QueueProtocol.NoLostWakeup | server/tasks_queue.c:76-138 | no reachable state has sleepers that nobody is on the way to wake while there is something for them |
| QueueProtocol.FifoExactlyOnce | server/tasks_queue.c:82-125 | over any interleaving what was enqueued is what was dequeued, in order, then the ring, never above 30 |
| QueueProtocol.DequeuedInOrder | server/tasks_queue.c:110-138 | a consumer that gets the mutex takes the k-th task enqueued as the k-th, or sleeps on an empty ring and changes nothing |
| QueueProtocol.AppendsItsOwn | server/tasks_queue.c:82-92 | a producer that gets the mutex appends the task of its own last call, or sleeps on 30 tasks holding it and changes nothing |
| QueueProtocol.EveryTaskOnce | server/tasks_queue.c:76-108 | over any interleaving every task has been enqueued or is still held by a producer exactly as often as `enqueue` was called with it |
| Transfer.AsRecvAssetFile | utils/utils.c:32-108 | succeeds exactly when the stream makes a file of the announced size, which is then written; counters stay inside `int` |
| Transfer.AsSendAssetFile | utils/utils.c:119-163 | sends the file and a line feed, or fails when the file is shorter than announced |
| Transfer.TransferRoundTrip | utils/utils.c:119-163 | sent then received is the identical file, over every split and every content |
| Transfer.ExactStream | utils/utils.c:59-87 | a stream of one byte more than announced is accepted if and only if that byte is LF, whatever the split |
| Transfer.ShortStream | utils/utils.c:41-57 | anything shorter is refused |
| Transfer.AcceptedIff | utils/utils.c:59-87 | for all streams, longer ones included: exactly when a file is accepted, and which |
| Transfer.LongStreamDependsOnSplit | utils/utils.c:59-81 | one stream, two splits, two outcomes |
| AssetDelivery.ServeShowAsset | server/tcp.c:477-620 | name, size, file and line feed of the auction asked for, or NOK, or the error code; the stored file is not changed |
| AssetDelivery.FetchAsset | client/tcp.c:449-580 | the client's answer to every byte stream and every split |
| AssetDelivery.AssetRoundTrip | client/tcp.c:501-580 | what the server sends of a file is what the client ends up with, under its name, over every split |
| AssetDelivery.SasCommandRoundTrip | client/tcp.c:439-440 | the SAS command is the request meant |
| AssetDelivery.AssetDelivered | server/tcp.c:536-605 | over every run SAS of an auction opened before delivers the file it was opened with if and only if the START line gives its name back, and NOK otherwise |
| AssetDelivery.RunKeepsAssets | server/tcp.c:250-257 | no stored file is larger than 10^7 bytes in any reachable database |
| Readers.ReadOpaArgs | server/tcp.c:195-241 | the argument loop ends on every stream, stays inside its buffers and computes the reading of the stream |
| Readers.AcceptsIffHeader | server/tcp.c:195-241 | accepted if and only if the stream starts with five good space-terminated tokens; everything behind the fifth space is untouched |
| Readers.ClosedIffUnfinished | server/tcp.c:206-236 | the reader gives up without a reply if and only if the stream ends inside an argument that could still become good |
| Readers.OpaRoundTrip | client/tcp.c:123-126 | the reader inverts the client's printer |
| Readers.ReadBidValue | server/tcp.c:643-681 | the value loop computes the reading of the stream |
| Readers.BidValueRoundTrip | client/tcp.c:664-667 | leading zeros dropped, the printed value comes back; the LF stays unread only behind six digits |
| Readers.ValueShape | server/tcp.c:647-681 | whatever is accepted is zeros, at most six digits and an LF unless they are six |
| Readers.ShapeIsValue | server/tcp.c:643-681 | and whatever has that shape is accepted with that value |
| Readers.EndedExactly | server/tcp.c:659-662 | it gives up without a reply exactly on zeros and fewer than six digits |
| Heads.OpenHeadExactly | server/tcp.c:145-190 | the head of OPA is taken for a user and a password if and only if it is the printed text |
| Heads.CloseExactly | server/tcp.c:321-380 | CLS is taken for a request by valid names if and only if it is the printed text |
| Heads.BidExactly | server/tcp.c:625-718 | BID, if and only if its head is one of five texts and the value reader takes the rest |
| Heads.UserCommandsExactly | server/udp.c:69-86 | LIN, LOU and UNR, if and only if the datagram is the printed text |
| Records.StartRoundTrip | server/database.c:1009 | all the differently written token walks recover the fields of a printed START line |
| Records.StartLineFits | server/database.c:152-153 | the line is at most 87 bytes, so the 128-byte read has it whole |
| Records.StartReads | server/database.c:156-185 | what every walk returns for every START line the server writes: expiry, closing, bidding and the record find their fields if and only if the name is not empty and the file name holds no line feed; the start value has a token if and only if the latter |
| RecordReply.BidLineRoundTrip | server/database.c:497-560 | re-reading a stored bid prints exactly its entry |
| RecordReply.EndLineRoundTrip | server/database.c:572-595 | either way of writing an END prints the same entry |
| RecordReply.ClientParseBids | client/udp.c:662-712 | the client's token loop computes its reading of the bids |
| RecordReply.RecordRoundTrip | client/udp.c:512-747 | the client recovers owner, name, file name, start value, date, time and time active in their places, every bid and the END, if and only if every offset and the duration have at most six digits |
| RecordReply.RecordReplyLength | client/udp.c:541-542 | with at most 50 bids the reply is at most 2263 bytes, its one line feed at the end, and fits the client's 65534-byte read |
| Lists.ClientParsePairs | client/udp.c:343-368 | the client's token loop computes its reading of the pairs |
| Lists.ListRoundTrip | client/udp.c:279-368 | the client recovers the exact sequence of ids and states |
| Lists.ListReplyLength | server/udp.c:384-413 | 6 + 6n + 1 bytes, one LF, at the end; at most 6001 for 999 auctions |
| Envelopes.OpenNotice | client/udp.c:291-315 | a status alone is recognised as that status |
| Wire.StartText | server/database.c:1008-1010 | the START line field by field |
| Wire.BidFileText | server/database.c:1299-1300 | the bid file field by field |
| Wire.EndFileText | server/database.c:1160-1171 | the END file field by field |
| Wire.RecordReplyText | server/udp.c:531-533 | the record reply field by field |
| Wire.BidEntryText | server/database.c:553 | each bid of a record field by field, in order |
| Wire.EndEntryText | server/database.c:584 | the end of a record field by field |
| Wire.ListEntryText | server/database.c:425-440 | each entry of a list: three digits, and 1 for an active auction |
| Wire.AssetReplyText | server/tcp.c:596 | the asset reply field by field |
| Wire.OpenCommand | client/tcp.c:122-126 | the OPA command field by field is the request meant |
| Wire.TradeCommands | client/tcp.c:664-667 | so are CLS, BID and SAS |
| Wire.UserCommands | client/udp.c:49 | so are LIN, LOU and UNR |
| Wire.QueryCommands | client/udp.c:395 | so are LMA, LMB, LST and SRC |

## Left out

- Handlers.Handle: where NULL reaches a validator (`Crash`, BID) or `strlen` (`UdpServer.Stops`, SRC) the process ends, its files as they are; the model names the reply and goes on, as a server started again would on those files.
- Database.Database.CreateAuctionDir: an auction directory whose BIDS or ASSET was refused is the same value as one in which both are empty.
- TcpHandlers.ServeOpen: the operating system refuses nothing; what a refusal leaves is said of CreateNewAuction alone.
- Database.Database.GetAuctionBiddersList: whether an END was written with a line feed is a parameter, because the stored value does not record it.
- AssetDelivery.FetchAsset: the client's different errors are one value where nothing is delivered, and the file a failed download leaves on its disk is not modelled.
- START, bid and END files are kept as records; their text is produced and read back at each use, through the printers and the token walks of `Records` and `RecordReply`.
- Short `write` and `send` calls: as written, the copy loops move their position in the buffer and also add the running count; the model takes each call as complete, and reads fixed-size headers as one piece.
- Socket and file errors, timeouts, permissions and locales; `alphasort` is taken in the C locale.
- The cursor `strtok` shares between threads: a cursor per walk here.
- `gmtime`, `strftime` and `is_valid_date_time`: a date and a time are opaque words of fixed width per instant, accepted by the validator.
- One clock reading per handler; the interleaved model reads the clock in every critical section.
- A byte is a `char`.
- The TCP command table with its error replies and unknown commands; the session loop of the client, its state and its display layout; what it makes of the answers to LIN, LOU, UNR, OPA, CLS and BID.
- Error returns of the pthread calls, `destroy_queue`, logging, option parsing and shutdown.
