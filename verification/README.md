# Argos: a verified model of its connection pool, its RESP session and its wire codecs

Argos is an RPC runtime whose transports share a handful of small, subtle parts. This project models
five of them in Dafny and proves what they are for.

**The connection pool** (`internal/sessionpool/pool.go`). An endpoint-keyed pool whose lock is dropped
around every dial, so that correctness lives in what each lock region keeps. `PoolSpec` gives every lock
region as a function on the pool's state and proves that each keeps the representation invariant (index,
entry lists, idle queues, refcounts) and what it may change. `PoolImpl` is the pool as heap objects
updated in place, as in the source, each method proved equal to its region. `PoolRuns` lets any number of
callers, dials (which succeed, fail or panic), releases, ticks and closes interleave, and proves one
invariant over every run: each session that was ever dialed is in exactly one place; refcounts are leases;
reservations are dials in flight; sessions and reservations respect the cap; a shared dial has one leader
and is announced exactly once; an `OpenCall` chain is bounded. The session's `Reusable()` answers and the
clock are parameters of each step and may be anything.

**The RESP format and its session** (`example/resp`). `RespWire` is the recursive parser and the printer
of RESP2 (the Redis serialization protocol specification, sections "Simple strings", "Bulk strings" and
"Arrays"): the prefix law, the round trip with its exact condition, canonical printing. `RespSession` is the
read loop and its readers as lock regions of a buffer with a wake channel that is closed and replaced at
every broadcast; over every run, what readers get does not depend on how the stream was cut, errors come
after all the values, and no wakeup is lost. `RespSessionImpl` is the session object. `RespCall` carries a
command's arguments from a client's payload to a server's, over any chunking, and has the call object.

**The reflection walk** (`transport/grpc/reflection`). `Reflection` proves that the queue walk over the
import graph, which enqueues files it has already visited, terminates by a weight on acyclic graphs, and
what it sends; and what the set of sent files means over a whole stream of requests.

**gRPC wire codecs** (`transport/grpc`), after "gRPC over HTTP/2" (PROTOCOL-HTTP2), sections "Requests"
and "Responses". `GrpcLpm`: length-prefixed messages and resynchronisation behind oversize ones.
`GrpcTimeout`: the arithmetic of `grpc-timeout`. `GrpcMessage`: percent-encoding over UTF-8 (section 3 of
RFC 3629). `GrpcMetadata` and `Base64` (section 4 of RFC 4648): metadata as headers, for any order in which
a map is ranged over.

**REST paths** (`transport/httpunary/router_rest.go`). `RestPath`: building a path from a pattern and
matching a path against it undo each other, and exactly when.

`Seqs`, `Decimal` and `Text` hold what several of these need: sequences, decimal numerals, splitting and
joining.

## Where the code and its documentation differ

- `OpenCall`'s comment says that `ErrConnBusy` and `ErrConnSpent` never leak to the caller. They do when
  `DialFunc` itself ends with one of them, and to every caller that joined the dial: `PoolRuns.BusyCanLeak` is
  such a run, and `PoolRuns.LeakExactly` says of which runs it is true.
- `ErrSessionsExhausted` does not always mean that the endpoint is full: an `OpenCall` whose attempts were all
  answered Busy or Spent reports it too (`PoolRuns.OneSpentExhausts`);
  `PoolRuns.ExhaustedAnswersExactly` lists every case.
- `New`'s comment says that a `MaxCallsPerConn` of zero or less, other than -1, means one call per connection.
  Every negative number means no limit: `PoolSpec.MinusTwoShares` is an input, `PoolSpec.OneCallExactly` the exact
  condition.
- `ReadLPMLimited`'s comment says that `io.EOF` means the stream ended before a header. It also comes when
  the stream ends right behind the header of a message that is not empty (`GrpcLpm.CutMessageReadsAsEof`);
  `GrpcLpm.EofExactly` and, for a whole stream, `GrpcLpm.CutStreamReadsAsEnded` are the exact conditions.
- A reader that is told `io.EOF` by a closed session has had every value received so far, but the read loop
  may still append a chunk it had read, and a later reader then gets a value
  (`RespSession.CloseIsNotFinal`). `RespSession.FinalExactly` says when a failure is the last word.
- A comma-joined list of binary values with no element decodes to a list of one empty value
  (`GrpcMetadata.CommaJoined`).

## Model

| member | source | states |
|---|---|---|
| PoolSpec.ReclaimDoes | internal/sessionpool/pool.go:618-645 | a reclaim keeps the representation invariant, removes and closes only idle sessions that nobody leases, each once, and changes no refcount, reservation or flight |
| PoolSpec.DropAllKeeps | internal/sessionpool/pool.go:585-616 | taking any set of sessions out of index, entries and idle queues keeps the representation invariant, and no entry list grows |
| PoolSpec.LendKeeps | internal/sessionpool/pool.go:511-535 | lending a tracked session, idle or leased, keeps the representation invariant |
| PoolSpec.FirstLendableExactly | internal/sessionpool/pool.go:511-552 | the search answers the first entry in list order that is tracked, unskipped and lendable, and none when there is none |
| PoolSpec.EnterKeeps | internal/sessionpool/pool.go:240-301 | the region at the top of acquire keeps the representation invariant whatever it decides |
| PoolSpec.EnterDoes | internal/sessionpool/pool.go:240-301 | it adds one lease to the lent session or one reservation to the endpoint and nothing else; a lent session is unskipped, of the endpoint and within its call limit; a reserved dial leaves the endpoint within its cap; a flight is joined only if registered and opened only if none is; the pool is reported closed exactly when it is |
| PoolSpec.EnterAnswers | internal/sessionpool/pool.go:240-301 | on an open pool, after the reclaim, acquire lends if and only if some unskipped session of the endpoint is reusable, within its lifetime and below its call limit, and then the first such in entry order; else it joins the endpoint's dial on a pool that shares connections, else dials if and only if there is room, else answers ErrSessionsExhausted |
| PoolSpec.OneCallExactly | internal/sessionpool/pool.go:132-141 | a connection takes one call at a time if and only if MaxCallsPerConn is zero or one |
| PoolSpec.MinusTwoShares | internal/sessionpool/pool.go:132-141 | with MaxCallsPerConn -2, acquire lends a session that carries a call |
| PoolSpec.RejoinDoes | internal/sessionpool/pool.go:270-289 | after a joined flight landed the caller lends, gives up or tries again, with the same bounds, never dials or joins in that region, and tries again only below the cap |
| PoolSpec.RejoinAnswers | internal/sessionpool/pool.go:270-289 | after a joined flight it lends by the same rule; else it starts over if and only if there is room, else answers ErrSessionsExhausted |
| PoolSpec.RejoinExhaustedExactly | internal/sessionpool/pool.go:270-289 | that region answers ErrSessionsExhausted if and only if the pool is open, entries and reservations are at the cap and no unskipped session of the endpoint is lendable, whether or not a flight is registered |
| PoolSpec.RejoinKeeps | internal/sessionpool/pool.go:270-289 | that region keeps the representation invariant |
| PoolSpec.ExhaustedExactly | internal/sessionpool/pool.go:240-297 | the region at the top of acquire answers ErrSessionsExhausted if and only if the pool is open, there is no flight to join, entries and reservations are at the cap after the reclaim, and no unskipped session of the endpoint is lendable |
| PoolSpec.SettleDoes | internal/sessionpool/pool.go:314-411 | on every way out of a dial one reservation goes, the session is tracked with one lease exactly when it landed in an open pool, and a led flight is unregistered and closed once with the error its joiners will report |
| PoolSpec.SettleTells | internal/sessionpool/pool.go:314-411 | the dialer gets its session when it came into an open pool; else that the pool is closed, the dial's own error, or the panic; a led flight is left no error if and only if a session came into an open pool, and else the same error, a panic being reported even of a closed pool |
| PoolSpec.SettleKeeps | internal/sessionpool/pool.go:314-411 | every way out of a dial keeps the representation invariant |
| PoolSpec.ReleaseDoes | internal/sessionpool/pool.go:415-437 | a release takes back exactly one lease of exactly that session, and closes it only when that lease was the last |
| PoolSpec.ReleaseKeeps | internal/sessionpool/pool.go:415-437 | any release, also of an unknown or an idle session, keeps the representation invariant |
| PoolSpec.DiscardIsDrop | internal/sessionpool/pool.go:585-603 | discarding an entry leaves no trace of its session in any bucket |
| PoolSpec.ReclaimSeqIs | internal/sessionpool/pool.go:618-634 | walking a copy of an idle queue, discarding as it goes, drops exactly the sessions that were dead before the walk |
| PoolSpec.ReclaimNext | internal/sessionpool/pool.go:618-634 | walking one more bucket drops exactly its dead sessions, whatever buckets were walked before |
| PoolSpec.ReclaimDone | internal/sessionpool/pool.go:618-634 | the walk over all buckets, in any order, drops every dead idle session and nothing else |
| PoolSpec.TickDoes | internal/sessionpool/pool.go:647-663 | the ticker's region removes only idle, unleased sessions and touches no lease, reservation or flight |
| PoolSpec.TickKeeps | internal/sessionpool/pool.go:647-663 | and keeps the representation invariant |
| PoolSpec.TickExactly | internal/sessionpool/pool.go:647-663 | a tick takes a session away if and only if nobody leases it and it is too old, idle for too long or no longer reusable; the rest stay as they were |
| PoolSpec.ReclaimExactly | internal/sessionpool/pool.go:618-634 | a reclaim takes a session away if and only if nobody leases it and it is past its lifetime, idle for too long or no longer reusable; every other entry stays as it was |
| PoolSpec.LastReleaseExactly | internal/sessionpool/pool.go:561-583 | the last release keeps a session if and only if it is reusable, within its lifetime and there is idle room; it is then idle from that moment, last in its queue, and otherwise gone from the entries |
| PoolSpec.LentIsFit | internal/sessionpool/pool.go:246-251 | what acquire lends was tracked, is reusable and within its lifetime, carries one call more than before and is in no idle queue |
| PoolSpec.AgesFromLanding | internal/sessionpool/pool.go:499-583 | over a dial that lands, the release of its session and a later reclaim: it survives the release if and only if reusable, within its lifetime counted from the dial and with idle room, and the reclaim if and only if also reusable then, within that lifetime and within the idle timeout counted from the release |
| PoolRuns.StepKeepsInv | internal/sessionpool/pool.go:173-461 | every step of every caller, of the ticker and of Close keeps the whole invariant: ledger, refcounts, call limits, reservations and cap, flights, retry chains |
| PoolRuns.EveryRun | internal/sessionpool/pool.go:173-461 | the invariant holds after every run from an empty pool |
| PoolRuns.NeverShared | internal/sessionpool/pool.go:205-235 | on a sequential or one-shot pool no two callers ever hold one connection |
| PoolRuns.CallLimitHolds | internal/sessionpool/pool.go:511-552 | in no run does a connection carry more calls than MaxCallsPerConn, zero meaning one |
| PoolRuns.CapHolds | internal/sessionpool/pool.go:254-255 | while the pool is open, tracked sessions plus dials in flight of an endpoint never exceed a positive MaxSessionsPerEndpoint |
| PoolRuns.AcquireGives | internal/sessionpool/pool.go:205-301 | what acquire makes of a caller: it holds or opens the first session on offer, waits for the endpoint's dial, dials, or is told; leading the dial for others exactly where connections are shared |
| PoolRuns.NotClosedUnderCaller | internal/sessionpool/pool.go:561-645 | a leased session was discarded by no return and no reclaim, and while the pool is open it is tracked and unclosed |
| PoolRuns.OnlySpentCloses | internal/sessionpool/pool.go:194-198 | while the pool is open, whoever leases a session, it was closed exactly as often as an OpenCall found it spent: nobody else closes it |
| PoolRuns.WaiterHasLeader | internal/sessionpool/pool.go:257-293 | a caller that waits on a flight can go on, or the flight has exactly one leader still bound to close it |
| PoolRuns.SingleFlight | internal/sessionpool/pool.go:298-367 | a multiplexed endpoint never has two dials in flight, and no flight is closed twice |
| PoolRuns.DialerGets | internal/sessionpool/pool.go:314-411 | what comes of a dial for the caller that dialed: its session, or what went wrong |
| PoolRuns.JoinerGets | internal/sessionpool/pool.go:257-293 | however much later it wakes, a caller that shared a dial goes on to lend if and only if the session came into an open pool, and is else told the panic, the pool's being closed or the dial's own error |
| PoolRuns.LateSessionCloses | internal/sessionpool/pool.go:350-357 | when the pool was closed under a dial that brought a session, it is neither tracked nor closed yet, whatever others did since; the one thing the dialer can do next is to close it, and the caller is told that the pool is closed |
| PoolRuns.ClosedForGood | internal/sessionpool/pool.go:350-357 | after Close nothing is tracked again, however the run goes on |
| PoolRuns.CloseClosesAll | internal/sessionpool/pool.go:440-461 | every session tracked when Close comes is, in every run from there, waiting on Close's list or closed from it, exactly once, and neither discarded, tracked nor in a dialer's hand |
| PoolRuns.TriesRun | internal/sessionpool/pool.go:173-203 | along every run the number of OpenCalls a caller made is the attempt count of its chain while that goes on, and at most the maximum when it is over |
| PoolRuns.TriesBounded | internal/sessionpool/pool.go:173-203 | an OpenCall tries at most a positive MaxSessionsPerEndpoint sessions |
| PoolRuns.BusyNotTriedAgain | internal/sessionpool/pool.go:189-193 | after a session answered Busy, every later OpenCall of that chain is on another session, whatever happens in between |
| PoolRuns.RefusedGoesOn | internal/sessionpool/pool.go:185-200 | after an OpenCall failed on a session, whatever others do, what its caller does next is to release that session: any error but Busy and Spent ends the chain and is what it is told; Busy and Spent let it go on if and only if the OpenCalls it made are below a positive maximum, Busy without that session |
| PoolRuns.OpenedHolds | internal/sessionpool/pool.go:185-188 | after an OpenCall succeeded its caller holds that very session, and what it does next is to release it, without an error |
| PoolRuns.ExhaustedAnswersExactly | internal/sessionpool/pool.go:173-413 | in any run, an event tells a caller ErrSessionsExhausted if and only if a region finds its endpoint full (at the top of acquire also with no dial to join), or its chain has made the maximum of OpenCalls and the last gave the session back, or a dial or a session itself ended with that error |
| PoolRuns.OneSpentExhausts | internal/sessionpool/pool.go:173-203 | a run in which one Spent answer makes a chain of one attempt report ErrSessionsExhausted over an empty endpoint |
| PoolRuns.NoLeakWhenDialsClean | internal/sessionpool/pool.go:162-203 | ErrConnBusy and ErrConnSpent reach no caller of a run in which no dial ended with one |
| PoolRuns.LeakExactly | internal/sessionpool/pool.go:162-203 | from any state of any run in which nobody was told ErrConnBusy or ErrConnSpent yet, some caller, dialer or joiner, is told one in a run if and only if a dial that ended with one is settled in it while the pool is open |
| PoolRuns.BusyCanLeak | internal/sessionpool/pool.go:167-184 | a run in which OpenCall reports ErrConnBusy |
| PoolImpl.Pool.constructor | internal/sessionpool/pool.go:135-154 | a new pool is empty, open and satisfies the invariant |
| PoolImpl.Pool.BucketLocked | internal/sessionpool/pool.go:490-497 | looking a bucket up creates it when missing and changes nothing else |
| PoolImpl.Pool.RemoveIdle | internal/sessionpool/pool.go:605-616 | the record leaves its idle queue, order kept, and its mark goes |
| PoolImpl.Pool.Discard | internal/sessionpool/pool.go:585-603 | the record leaves index and lists and its session is closed, as PoolSpec has it |
| PoolImpl.Pool.TryLend | internal/sessionpool/pool.go:511-535 | the in-place loan is the loan of the specification: same session, same new state |
| PoolImpl.Pool.ReclaimBucket | internal/sessionpool/pool.go:619-634 | the walk over a copied idle queue, records discarded under it, is the specified sequence of steps |
| PoolImpl.Pool.SweepFindsNone | internal/sessionpool/pool.go:635-643 | where the invariant holds, no listed record is unleased and yet not idle: the guard of the sweep holds of none |
| PoolImpl.Pool.ReclaimNextBucket | internal/sessionpool/pool.go:619-644 | the walk of one bucket, and the sweep behind it at the state the walk left, drop exactly that bucket's dead sessions; the sweep's comment "should not happen" is right at every turn |
| PoolImpl.Pool.ReclaimAll | internal/sessionpool/pool.go:618-645 | the whole reclaim, walk and sweep of every bucket in whatever order, equals the specified one |
| PoolImpl.Pool.EnterPool | internal/sessionpool/pool.go:240-301 | the region at the top of acquire, on the heap, keeps the invariant and is PoolSpec's region: same answer, same state |
| PoolImpl.Pool.RejoinPool | internal/sessionpool/pool.go:270-289 | likewise the region after a joined flight |
| PoolImpl.Pool.AddEntry | internal/sessionpool/pool.go:499-509 | a fresh record with one lease joins index and entry list |
| PoolImpl.Pool.LandFlight | internal/sessionpool/pool.go:317-324 | a flight is unregistered and closed together |
| PoolImpl.Pool.SettleDial | internal/sessionpool/pool.go:314-411 | likewise the region after a dial: success, error, panic, closed pool |
| PoolImpl.Pool.ReturnNow | internal/sessionpool/pool.go:561-583 | likewise returnLocked |
| PoolImpl.Pool.ReleaseSess | internal/sessionpool/pool.go:415-437 | likewise Release |
| PoolImpl.Pool.TickNow | internal/sessionpool/pool.go:655-660 | likewise the ticker |
| PoolImpl.Pool.ShutNow | internal/sessionpool/pool.go:440-454 | likewise Close; it hands out every tracked session for closing |
| PoolImpl.ReleasingCall.Close | internal/sessionpool/pool.go:217-235 | however often it is called, the lease goes back exactly once |
| RespWire.Parse | example/resp/wire.go:106-175 | a value takes at least three bytes and no more than there are, so the nested loop and recursion end |
| RespWire.IndexIs | example/resp/wire.go:177-183 | a line ends at its first line break |
| RespWire.ParseStable | example/resp/wire.go:106-183 | a value or a malformed verdict survives every extension of the buffer |
| RespWire.ParseAllStable | example/resp/wire.go:161-171 | and so does the verdict on the elements of an array |
| RespWire.PrefixNeedsMore | example/resp/wire.go:106-183 | every proper prefix of a consumed value asks for more |
| RespWire.ParseConsumed | example/resp/wire.go:106-183 | the result depends on the consumed bytes alone |
| RespWire.RoundTrip | example/resp/wire.go:185-214 | a value without a line break in its one-line strings, printed and followed by any bytes, parses to itself and consumes exactly its length |
| RespWire.ParsedIsClean | example/resp/wire.go:106-183 | every parsed value is of that kind |
| RespWire.ReadsExactly | example/resp/wire.go:106-183 | the parser gives a value and a length if and only if the buffer starts with a form of that value of that length, said on the bytes: type byte, first line break, a numeral for the number or length, the string and its line break, the elements |
| RespWire.MalformedExactly | example/resp/wire.go:106-183 | a buffer is malformed if and only if its first byte is no type byte, or its first line is complete and no 64-bit numeral where one belongs, or a bulk string is all there without its line break, or an element of an array is so with all before it parsed |
| Decimal.ParsesExactly | example/resp/wire.go:124-157 | a numeral is at most one sign and then digits, leading zeros and all, and denotes what they spell by powers of ten, within 64 bits; exactly these are read |
| RespWire.NullForms | example/resp/wire.go:194-201 | a null bulk string and a null array are printed as their five bytes |
| RespWire.RoundTripExactly | example/resp/wire.go:106-214 | a value survives printing and parsing if and only if it is of that kind |
| RespWire.PrintIsCanonical | example/resp/wire.go:185-214 | printing what was parsed gives a form that parses to the same value, and printing again changes nothing |
| RespWire.PrefixFree | example/resp/wire.go:185-214 | of two values of that kind, neither's printed form is a proper prefix of the other's |
| RespWire.ParseValue | example/resp/wire.go:106-175 | the imperative parser computes the specified verdict |
| RespWire.ParseElements | example/resp/wire.go:161-171 | its element loop, offset and list updated, computes the specified sequence |
| RespWire.MarshalValue | example/resp/wire.go:185-214 | the printing loop writes the specified form |
| RespWire.EncodeArrayLoop | example/resp/wire.go:42-58 | the argument loop writes the array of the arguments as bulk strings |
| RespWire.DecodeArgsLoop | example/resp/wire.go:84-104 | the decoding loop accepts exactly one array of bulk strings with nothing behind it |
| RespWire.DecodesExactly | example/resp/wire.go:84-104 | a payload decodes to a list of arguments if and only if the whole of it is a form of the array of them as bulk strings |
| RespWire.ArgsRoundTrip | example/resp/wire.go:42-104 | arguments decode from their encoding unchanged |
| RespSession.ValuesExtend | example/resp/wire.go:106-175 | more bytes never change the values already in a stream: they only continue what was left over |
| RespSession.ValueTurnIs | example/resp/session.go:154-212 | a turn of readValue gives the value whenever the buffer holds one, fails only when it does not, and parks exactly when more may still come |
| RespSession.StepKeepsInv | example/resp/session.go:82-241 | every step of the read loop, of any reader and of closing keeps the stream, failure and wakeup invariants |
| RespSession.EveryRun | example/resp/session.go:82-241 | they hold after every run |
| RespSession.Chunking | example/resp/session.go:82-110 | for any stream, any cut into reads and any interleaving, what readers got is a front part of the one-shot parse, and the buffer is what was received minus what was consumed |
| RespSession.FailureComesLast | example/resp/session.go:154-212 | a reader is told of an error, the end or a malformed value only when every complete value received has been delivered, and of the end only when the loop failed or the session was closed |
| RespSession.FinalExactly | example/resp/session.go:154-212 | what a failing reader is told is the last word, for every reader and every run from there, if and only if it is a read error or a malformed value, or no further bytes could complete what is buffered |
| RespSession.VerdictIsFinal | example/resp/session.go:175-188 | so after a read error or a malformed verdict no run delivers another value, and every value received before was delivered |
| RespSession.CloseIsNotFinal | example/resp/session.go:136-164 | a run in which a reader is told io.EOF of a closed session and a later reader gets a value |
| RespSession.NoLostWakeup | example/resp/session.go:112-115 | a parked reader may go on, or the session is open, the read loop alive and the buffer without anything for it |
| RespSession.NoneParksAfterTheEnd | example/resp/session.go:92-105 | once the read loop failed or the session was closed, a parked reader may go on at once and no turn parks |
| RespSession.NeverReusableAgain | example/resp/session.go:117-121 | after the read loop failed, the session was closed, or a malformed value was reported, the session is never reusable again, whatever run follows |
| RespSession.ReusableExactly | example/resp/session.go:82-190 | over every run a session is reusable if and only if its read loop has not failed, it was not closed and no reader found a malformed value |
| RespSession.ErrorIsTheReads | example/resp/session.go:87-108 | the error that ended the read loop is what every later reader is told when the buffer holds nothing more for it, and the bytes that came with it are kept |
| RespSessionImpl.Session.constructor | example/resp/session.go:59-76 | a new session has an empty buffer and three distinct open channels |
| RespSessionImpl.Session.Broadcast | example/resp/session.go:112-115 | the current wake channel is closed, once, and replaced by a fresh one |
| RespSessionImpl.Session.Receive | example/resp/session.go:87-108 | a turn of the read loop, on the object, is the specified region, and wakes all who wait |
| RespSessionImpl.Session.ValueTurn | example/resp/session.go:154-212 | likewise a turn of readValue; it waits only on the current, open wake channel |
| RespSessionImpl.Session.ByteTurn | example/resp/session.go:214-241 | likewise a turn of waitFirstByte |
| RespSessionImpl.Session.TripPeerGone | example/resp/session.go:78-80 | the peer-gone channel is closed by the first to come and never twice |
| RespSessionImpl.Session.CloseSession | example/resp/session.go:136-151 | closing closes closeCh once, wakes all who wait, and only the first caller gets to the connection |
| RespCall.CommandFromValue | example/resp/session.go:330-346 | a command is a non-empty array of bulk strings, name first |
| RespCall.CommandsExactly | example/resp/session.go:330-346 | a value is a command with that name and those arguments if and only if it is the array of them as bulk strings |
| RespCall.ArgumentsArrive | example/resp/call.go:173-192 | the packet for a payload is one value whatever follows; the server reads the command back from it, and what its Recv hands over decodes to the very arguments of the payload |
| RespCall.RequestsArrive | example/resp/session.go:82-110 | however a connection cuts the bytes of many requests into reads, the i-th value a reader gets is the i-th request |
| RespCall.ClientCall | example/resp/call.go:142-192 | whatever is done with a client call, at most one request is written, and it leaves its session reusable exactly when it was unary, its one reply was taken and neither side of the connection failed |
| RespCall.ServerCall | example/resp/call.go:194-286 | a unary server call writes at most one reply, and leaves its session reusable exactly when it was unary, replied or finished, and no write failed |
| RespCall.ArgsOnce | example/resp/call.go:95-104 | once its arguments went out, a server's Recv gives the end of the stream for ever |
| RespCall.SendTells | example/resp/call.go:142-206 | after whatever was done with a call, what Send answers, by what was done: closed once Close was called; finished for a client that sent or was half closed, for a server that was finished or is unary and replied; else the payload's or the connection's failure, or none |
| RespCall.FinishTells | example/resp/call.go:222-258 | likewise Finish: a server may finish once, and it fails only where it had an error to write and the write failed |
| RespCall.NothingMoreSent | example/resp/call.go:142-171 | a closed call, a half-closed client call and a finished server call never write again, whatever is done with them |
| RespCall.FinishSends | example/resp/call.go:222-258 | an error given to Finish goes out as the error reply `-ERR` and the message when there was no reply |
| RespCall.Call.Send | example/resp/call.go:142-206 | Send, on the object, is the specified step; what is written is what the step sends, and only a failed write spoils the session |
| RespCall.Call.SendClient | example/resp/call.go:173-192 | likewise sendClient: a payload that does not decode writes nothing |
| RespCall.Call.RecvServer | example/resp/call.go:95-104 | the arguments go out encoded, once |
| RespCall.Call.RecvClient | example/resp/call.go:106-140 | a reply comes out printed, an error reply as a status; only a failed read spoils the session |
| RespCall.Call.Finish | example/resp/call.go:222-258 | Finish writes its error only when there was no reply |
| RespCall.Call.Close | example/resp/call.go:260-286 | the slot goes back once, poisoned unless the call was complete |
| Reflection.ReachIsClosed | transport/grpc/reflection/engine.go:78-80 | what a file reaches holds every import that is there of what it holds |
| Reflection.ReachLeast | transport/grpc/reflection/engine.go:78-80 | and is in every such set that holds the file: it is the closure |
| Reflection.Visit | transport/grpc/reflection/engine.go:62-81 | one turn of the walk keeps the walk's invariant and lowers the weight of the queue, also when the file was visited before |
| Reflection.FileDescWithDependencies | transport/grpc/reflection/engine.go:51-83 | the walk ends; it answers the root first, then each reachable file that was not sent, exactly once, nearer files before farther ones, and marks all of them |
| Reflection.BidiHandler | transport/grpc/reflection/reflection.go:57-80 | a stream answers each request so, with one set of sent files carried along |
| Reflection.SentNext | transport/grpc/reflection/reflection.go:59-78 | what is marked sent grows with each request by what its root reaches |
| Reflection.SentStaysClosed | transport/grpc/reflection/reflection.go:59-78 | when a file is marked sent, so are its imports that are there |
| Reflection.OnlyRootsAgain | transport/grpc/reflection/engine.go:69-77 | a file goes out twice only as the root of the later request |
| Reflection.AgainAlone | transport/grpc/reflection/engine.go:69-77 | a root asked for again goes out alone |
| Reflection.ClientHasAll | transport/grpc/reflection/reflection.go:57-80 | once a request is answered the client has every file its root reaches |
| Reflection.AcyclicIsCoherent | transport/grpc/reflection/engine.go:62-81 | in any acyclic graph of files by path, whatever roots are asked for, a path names one file: the statements above hold of it |
| Reflection.UnfoldedReachIs | transport/grpc/reflection/engine.go:62-81 | in such a graph, what a descriptor reaches is what its path leads to by imports that are there |
| GrpcLpm.Big32RoundTrip | transport/grpc/lpm.go:46 | a 32-bit length survives its four bytes |
| GrpcLpm.WriteThenRead | transport/grpc/lpm.go:35-109 | one written message, whatever follows: unchanged within the limit, refused over it when worth draining, with exactly the message consumed; out of sync beyond that |
| GrpcLpm.FrameLayout | transport/grpc/lpm.go:35-55 | a frame is the flag, the length in four bytes, most significant first, and the payload |
| GrpcLpm.DrainsAMebibyte | transport/grpc/lpm.go:24-100 | a message over the limit of at most 1048576 bytes is refused with exactly the message consumed; a longer one leaves the stream out of sync |
| GrpcLpm.RefusalsNeverStop | transport/grpc/lpm.go:24-109 | over a stream whose messages are all within the limit or of at most 1048576 bytes, every message is seen or refused, in order, and then the end |
| GrpcLpm.RoundTripExactly | transport/grpc/lpm.go:35-109 | a message comes back if and only if its length is below 2^32 and within the limit |
| GrpcLpm.EofExactly | transport/grpc/lpm.go:63-109 | io.EOF comes if and only if the stream ended at a boundary or right behind the header of a message that is not empty |
| GrpcLpm.CutMessageReadsAsEof | transport/grpc/lpm.go:63-109 | a cut message that reads as the end of the stream |
| GrpcLpm.TruncatedIsNotRead | transport/grpc/lpm.go:76-108 | no proper prefix of a message is taken for a message or a skipped one, and a drain that falls short gives ErrLPMUnsynced |
| GrpcLpm.CutMessageTells | transport/grpc/lpm.go:67-109 | what is told of a message cut at any byte: out of sync when it was being skipped, the carrier's own error, the end at nothing or just a header, and else an unexpected end |
| GrpcLpm.StreamResync | transport/grpc/lpm.go:63-109 | over a stream of messages, reading gives each message or its refusal in order, up to the first that is not worth skipping, and the end at the boundary |
| GrpcLpm.CutStreamReadsAsEnded | transport/grpc/lpm.go:63-109 | a stream of messages cut anywhere reads as one that ended if and only if the cut is at a boundary or right behind the header of a message neither empty nor over the limit, and no message before it stops the reading |
| GrpcLpm.AllWithin | transport/grpc/lpm.go:57-61 | with no limit passed, a stream reads back as it was written |
| GrpcLpm.WriteLPM | transport/grpc/lpm.go:38-55 | the header array and the payload are written as one frame; a failing writer leaves the header or nothing |
| GrpcLpm.ReadLPMLimited | transport/grpc/lpm.go:67-109 | the imperative reader gives the specified outcome and consumes exactly the specified bytes |
| GrpcTimeout.EncodedIsShort | transport/grpc/timeout.go:53-75 | the value is at most eight digits and a unit letter, for every int64 duration |
| GrpcTimeout.DecodeIsExact | transport/grpc/timeout.go:77-100 | no accepted string overflows: the product is exact, or saturated for hours |
| GrpcTimeout.DecodesExactly | transport/grpc/timeout.go:77-100 | accepted are exactly the strings of one to eight digits and one of the six unit letters, as the number times the unit, hours saturating |
| GrpcTimeout.RoundTrip | transport/grpc/timeout.go:53-100 | every encoded duration decodes, to the rounded one |
| GrpcTimeout.RoundsUpALittle | transport/grpc/timeout.go:45-75 | a timeout is never shortened and is lengthened by less than one part in 99999, saturation included |
| GrpcTimeout.Monotone | transport/grpc/timeout.go:53-100 | a longer timeout is never heard as a shorter one |
| GrpcTimeout.Reencodes | transport/grpc/timeout.go:53-100 | passing a decoded timeout on encodes to the same value and decodes to the same duration |
| GrpcMessage.RuneRoundTrip | transport/grpc/message.go:35-36 | a decoded rune's bytes are those it came from, and U+FFFD where there was none |
| GrpcMessage.RuneDecodes | transport/grpc/message.go:35-36 | every rune's bytes decode to it, whatever follows |
| GrpcMessage.RepairedExactly | transport/grpc/message.go:35-47 | replacing undecodable bytes changes nothing if the message is UTF-8, and lengthens it if it is not |
| GrpcMessage.EncodedIsPrintable | transport/grpc/message.go:16-18 | the output is printable ASCII |
| GrpcMessage.EncodedForm | transport/grpc/message.go:32-50 | a byte from space to tilde other than the percent sign stands for itself, any other is a percent sign and its two upper-case digits |
| GrpcMessage.EitherCaseDecodes | transport/grpc/message.go:66-83 | an escape decodes to its byte whatever the case of its digits, and what follows decodes by itself |
| GrpcMessage.MalformedStays | transport/grpc/message.go:66-83 | a percent sign without two hexadecimal digits behind it stands for itself |
| GrpcMessage.RoundTrip | transport/grpc/message.go:19-83 | a receiver reads the message with each undecodable byte replaced by U+FFFD, and so the message itself if and only if it is UTF-8 |
| GrpcMessage.EncodeGrpcMessage | transport/grpc/message.go:19-30 | the early return agrees with the slow form on all inputs |
| GrpcMessage.EncodeUnchecked | transport/grpc/message.go:32-50 | rune by rune, the loop writes the percent form of the repaired message |
| GrpcMessage.DecodeGrpcMessage | transport/grpc/message.go:54-64 | the early return agrees with the slow form on all inputs |
| GrpcMessage.DecodeUnchecked | transport/grpc/message.go:66-83 | the index loop with its skips decodes every escape and leaves malformed ones as they are |
| Base64.CountIs | transport/grpc/metadata.go:99-104 | an encoding is full groups of four when padded, or when there is nothing to pad; else its last group has one digit more than bytes left |
| Base64.EncodedForm | transport/grpc/metadata.go:75-80 | group by group, an encoding is the digits for the 24 bits of three bytes, the first one foremost, zero bits behind the last; a last group that is not full has equals signs behind its digits when it is padded, and nothing when it is not |
| Base64.DigitIs | transport/grpc/metadata.go:75-80 | the digit for a number is the letter at that place of the standard alphabet |
| Base64.RoundTrip | transport/grpc/metadata.go:75-80 | encodings, padded or raw, decode to the bytes |
| GrpcMetadata.DecodesEither | transport/grpc/metadata.go:99-104 | choosing the decoder by length is right for every byte length, padded or not |
| GrpcMetadata.CommaJoined | transport/grpc/metadata.go:82-97 | a comma-joined list of encodings decodes to exactly that list if and only if it is not empty |
| GrpcMetadata.ValueRoundTrip | transport/grpc/metadata.go:75-97 | one value, binary or not, decodes to itself alone |
| GrpcMetadata.SentUnpadded | transport/grpc/metadata.go:75-80 | under a key that ends in `-bin` a value goes out encoded and without an equals sign, under any other as it is |
| GrpcMetadata.ReservedSeen | transport/grpc/reserved.go:9-37 | of the reserved keys, a receiver sees :authority and user-agent when they were sent, and no other |
| GrpcMetadata.ReservedNames | transport/grpc/reserved.go:9-26 | reserved are the names with a colon in front and the eight of the protocol, and three that look like those are not |
| GrpcMetadata.DecodedIs | transport/grpc/metadata.go:48-73 | every key has the values of its well-formed headers, in order: a malformed value costs only itself |
| GrpcMetadata.SentAndReceived | transport/grpc/metadata.go:21-73 | any metadata, in any order of keys: a key receives the values of every unreserved key that spells it in lower case |
| GrpcMetadata.RoundTrip | transport/grpc/metadata.go:21-73 | for every order of keys, metadata with ASCII keys is received as sent if and only if its keys are lower-case and unreserved and its value lists not empty |
| GrpcMetadata.NothingMalformed | transport/grpc/metadata.go:21-73 | what was encoded never decodes with an error |
| GrpcMetadata.FirstBadExactly | transport/grpc/metadata.go:56-73 | the error is about the first header with a value that does not decode |
| GrpcMetadata.EncodeMetadata | transport/grpc/metadata.go:21-39 | the nested loops produce the specified headers |
| GrpcMetadata.DecodeMetadataValues | transport/grpc/metadata.go:82-97 | the loop over the parts decodes all of them or none |
| GrpcMetadata.DecodeMetadata | transport/grpc/metadata.go:52-73 | the loop over the headers gives the specified result and the first malformed header |
| Text.SplitJoin | transport/httpunary/router_rest.go:96 | parts without the separator, joined, split into themselves |
| Text.JoinSplit | transport/httpunary/router_rest.go:165-166 | what was split joins to itself, and no part has the separator |
| RestPath.NormalizeTwice | transport/httpunary/router_rest.go:46-55 | a normalized pattern is left alone |
| RestPath.NormalizeIs | transport/httpunary/router_rest.go:46-55 | a pattern loses the white space around it and gains a slash in front when it has none; of white space nothing is left |
| RestPath.PathOnlyCuts | transport/httpunary/router_rest.go:57-62 | the path of a target is what is before its first question mark |
| RestPath.BindIs | transport/httpunary/router_rest.go:170-187 | the first n segments match if and only if none is `{}` and every literal equals its segment; each name stands for the segment of its last occurrence |
| RestPath.BuildThenMatch | transport/httpunary/router_rest.go:95-189 | a built path matches its pattern with exactly the values that went in if and only if the pattern is not blank, has no `{}` and no `?`, and no value has a `/` or a `?` |
| RestPath.MatchThenBuild | transport/httpunary/router_rest.go:95-189 | the variables of a match rebuild the path without its query if and only if none is empty and equal names stand for equal segments |
| RestPath.BuildsExactly | transport/httpunary/router_rest.go:95-128 | a path is built if and only if every variable of the pattern has a value, and is then the segments with those values in place, or a slash for a blank pattern |
| RestPath.BuildPath | transport/httpunary/router_rest.go:95-128 | the loop writes the specified path, or fails when a value is missing |
| RestPath.MatchPattern | transport/httpunary/router_rest.go:164-189 | the loop binds the specified variables, or fails |
| RestPath.OrderIsNothing | transport/httpunary/router_rest.go:158-162 | the metadata that comes of applying the variables does not depend on the order they are ranged over |
| RestPath.Incoming.ApplyPathVars | transport/httpunary/router_rest.go:158-162 | every variable has its value under its key, and every other key what it had |

## Left out

- Sockets, HTTP, TLS, WebSocket and UDP transports, contexts, timers and goroutines as such: cancellation,
  the ticker and the read loop are steps that may happen at any time.
- `dialNew`'s timeout budget and the goroutine that watches `stopCh`: a dial is an outcome.
- `flight.sess`, which nothing reads, and the order of assignments inside one lock region: a region is one
  step.
- `time.Sub`'s saturation and the wrap-around of Go's `int` in declared RESP lengths (`n+size+2`, the
  array's preallocation): integers are mathematical there.
- PoolRuns.NotClosedUnderCaller: does not count what an OpenCall closes itself on ErrConnSpent, which
  PoolRuns.OnlySpentCloses does, and says nothing of sessions that `Close` took from an open pool.
- PoolRuns.TriesBounded: with no positive MaxSessionsPerEndpoint the chain has no bound in the source.
- PoolSpec.SettleDoes: the success path of a shared dial gives up its reservation after tracking the entry;
  both happen in one region, so the order is not modelled.
- RespCall.ClientCall: methods of one call follow one another; `recvClient` sets `terminal` and spoils the
  session in two regions, and what happens between them is not modelled.
- RespCall.ServerCall: a `Send` and a `Finish` of two goroutines at once are not modelled.
- Handshakes, the `PeerGone` hand-off, the command table of `AcceptCall`, and the `busy` slot between
  `OpenCall` or `AcceptCall` and `endCall`.
- Reflection.FileDescWithDependencies: serialization is taken to succeed, and a path to name one file.
- The other requests of `ProcessV1`: they do not touch the set of sent files.
- GrpcMetadata.RoundTrip: for ASCII keys, `strings.ToLower` being modelled on ASCII letters only.
- RestPath.NormalizeTwice: `strings.TrimSpace` is modelled on ASCII spaces only.
- `ResolveAccept` over overlapping patterns, whose answer depends on the order of a map, and the other
  routers.
- Protobuf, JSON and gzip bodies, error texts, status tables, options, registries, the command line, code
  generators and admission counters: finite tables or plain counters.
