# Verified models of the benchmark origin servers

The repository compares HTTP origin servers. Most of them are thin layers over a framework; the C servers and two
small Rust servers are written by hand, and their algorithms are what this project models and proves correct:

* the **io_uring completion engine** (`origin-liburing/main.c`): one state machine per connection over a pool of 1024
  slots, driven by completions that the kernel may produce in any order and with any result (`Uring`, `UringSafety`,
  `UringRuns`, what it can always do in `UringProgress`, when it asks for TCP_NODELAY in `UringNoDelay`, what it loses
  in `UringLosses`, the imperative `UringServer` that refines them, and bad runs in `UringWitnesses`);
* the **epoll event loops** of the threaded and the multi-process server (`origin-c-epoll/main.c`,
  `origin-c-epoll-mp/main.c`), where slots are freed and taken again inside a batch of events (`Epoll`, `EpollSafety`,
  what the fields say about the run in `EpollHistory`, the imperative `EpollServer`, and bad runs in
  `EpollWitnesses`);
* the **slot pool** those servers share (`Pools`), with its free list threaded through an array;
* the **two recognisers of "Connection: close"**: nginx's substring search (`Search`) and a walk over field lines with
  moving pointers (`FieldParser`, and `CutOff` for requests that are cut off), and how their verdicts relate
  (`Recognisers`, `Bytes`);
* the **thread pool** of `origin-toysync/src/main.rs` (`ThreadPool`), as steps of workers that interleave;
* the **codec** of `origin-tokio/src/main.rs`: `encode` (`Framing`), `decode` and the connection loop (`Decode`);
* the **date cache** of `origin-toysync/src/date.rs`, which `origin-tokio/src/main.rs` repeats (`DateCache`).

`Counting` holds the set counting behind the conservation results.

## How to read it

An octet is the `char` with its code. Functions and lemmas carry the specification and its theory; code that works by
assignment is a method or a class, each proved to do what the specification function says. For the two servers the
chain is: a class whose arrays and fields are updated in place, `ensures` that equate its abstract state with the
transition function, an invariant kept by every transition, and results about whole runs. `UringServer.Serve` and
`EpollServer.RunEventLoop` close the chain: whatever the environment offers, the states of the program are exactly
those that the machine goes through under the same offers (`Follow`, `AfterTurns`): each step that is possible at its
moment is taken, the others are passed over, and the program stops where and why the machine does. These states are a
run. The results are stated for reachable states, which are the ends of runs of any length, or for runs; the
`...Keeps` lemmas are the steps of the induction behind them.

History is recorded beside the state, and no branch of the servers depends on it (only the model of `epoll_wait`
compares an event with it): serial numbers of accepted connections (descriptor numbers are reused, connections are
not), the operations each slot has issued since it was taken, slots that were lost.

### What is assumed of the environment

* io_uring: each submit hands every queued entry to the kernel; a successful accept yields a descriptor that is not
  open and not the listening socket; a recv delivers at most the buffer it was given, a send reports at most what it
  was told to send; close releases its descriptor whatever it returns. Otherwise results and their order are free, and
  a descriptor may be handed out again as soon as the kernel has executed the close.
* epoll: a batch reports only registered descriptors, with the data they were registered with, each at most once;
  `close` ends the registration; `accept4` yields -1 or a descriptor that is not open. The test `events[i].data.fd ==
  server_fd` never mistakes a slot's address for the listening socket.
* Dates and responses: `gmtime`, `strftime`, `snprintf` and `httpdate` are parameters. `gmtime` may fail at any
  second. A date is shorter than its 30-octet buffer and a response fits the slot's buffer with its final NUL.
* httparse: once it has reached a verdict, more input does not change it; no input is not an error; a complete head is
  at least one octet long, inside the input, and names at most 16 fields, all inside the head. What the `http` crate
  accepts is a set of predicates.
* `tokio_util`'s `Framed`: it decodes as long as the decoder yields, reads when the decoder asks for more, and after
  the end of the stream reports a remainder as an error.
* std's `Mutex` and `mpsc`: a panic while a guard is held poisons the mutex; `recv` fails only when the queue is empty
  and the sender is gone; `send` fails only when the receiver is gone, which is when every worker is dead.

### Where the code does not do what one would expect

* An ACCEPT completion with no free slot dereferences NULL. `DiesOnlyForWantOfASlot` shows that this is the only way
  for the engine to stop, and exactly when it happens; `UringWitnesses.TheProcessCanDie` that it does happen. The
  epoll servers die likewise (`EpollSafety.ServerKeeps`, `EpollWitnesses.TheProcessCanDie`).
* A date that cannot be formatted leaves a slot without a pending operation, and its connection open, for ever
  (`StrandedForEver`). The slot is counted as `stranded`. `StepStrands` says exactly which step strands a slot,
  `NothingStranded` exactly which runs strand none, and `ASlotCanBeStranded` that some run does as soon as any second
  has no date.
* The WRITE case does not look at how much was sent. `WholeResponses` says exactly when a client receives whole
  responses; `AResponseCanBeCutShort` gives a run in which it does not.
* In the epoll servers a request whose date cannot be formatted gets no answer, and its connection stays, even if it
  asked for a close (`ClientOutcome`).
* The engine's date cache starts with key 0 and an uninitialised buffer, so a first request handled at second 0 gets
  whatever the buffer held (`UninitialisedDateIsSent`); `RequestIsAnswered` gives the exact condition for the right
  response.
* In the epoll servers `*free_connection_n--` and `++` move a local pointer. `CounterIsRightOnlyWhenFull` states what
  that makes of the counter; in the io_uring server, which parenthesises the expression, the counter is exact.
* When a descriptor cannot be registered, the multi-process server closes it and forgets the slot; the threaded server
  returns the slot (`SlotsLost`). After 1024 such failures the multi-process server dies without a single open
  connection (`DiesWithoutConnections`).
* The parser advances `p` past the name and the white space of a Connection field before it subtracts the length of
  the line from `n`. After a Connection field with another value `p + n` lies past the request. The verdict is right
  all the same whenever the walk meets a stop inside the request, as it does in every complete head, or no such field
  occurs. Otherwise it is the verdict of the octets up to the ghost result `limit` of
  `FieldParser.HasConnectionClose`, which is the length plus what the tests of the lines passed have skipped.
  `CutOffVerdict` gives the exact condition on the octets received for the verdict to be theirs whatever memory holds
  behind them; `ACutOffRequest` is a request for which it is not.
* The search looks at everything that was received, body included, and wants exactly one space. `VerdictsAgree` gives
  the exact condition for the two recognisers to agree about a request, `SearchRefinesParserUnless` the one for the
  search's verdict to imply the parser's; `SearchReportsABody` and `ParserAcceptsMore` are the two ways to differ.
* The date caches of the Rust servers start with key 0 and no text, and `update` sets the key before it renders. So a
  clock at 0 at the start gives an empty date, and a clock before 1970, at which rendering panics, spoils the cache
  until the second changes (`DateIsRight`, `WrongAfterTheEpoch`). The latter matters to `origin-tokio/src/main.rs`
  only, where a panic ends a task and not its thread; in `origin-toysync` the panic ends the worker and its cache.
* `encode` adds its own Content-Length without looking at the response's fields (`OtherLengthIsNotDelimited` is an
  example of what that does). `ResponseRoundTrip` is an if-and-only-if: a reader that follows section 6.3 of RFC 9112
  gets the response back exactly when its own fields bring no other length (the same one may be repeated, also as a
  list) and no transfer coding and a status without a body comes without one; or when it brings a transfer coding that
  does not end in chunked, and nothing follows in the stream.

## Model

| member | source | states |
|---|---|---|
| UringRuns.RunsAreSafe | origin-liburing/main.c:245-354 | In every run from start-up, for any order and results of completions, the engine's invariant holds at every point, and no prep_ function ever finds the submission ring full. |
| UringRuns.StepKeeps | origin-liburing/main.c:275-354 | Every step of program or kernel keeps the invariant; the process can end on a missing slot only, never on a missing submission entry. |
| UringRuns.StartInv | origin-liburing/main.c:260-274 | Start-up on uninitialised memory establishes the invariant. |
| UringRuns.StartsUp | origin-liburing/main.c:260-274 | Start-up in full, whatever memory held: one accept queued for the first slot, the other 1023 free in order without a descriptor, nothing open. |
| UringRuns.EachSlotInOnePlace | origin-liburing/main.c:271-354 | Each of the 1024 slots is on the free list, or owns exactly one pending operation, or is stranded, and only one of these; the free counter equals the length of the list. |
| UringRuns.OneAcceptPending | origin-liburing/main.c:271-296 | Exactly one accept is outstanding between completions, on the listening socket. |
| UringSafety.QueueBound | origin-liburing/main.c:115-161 | Ownership alone bounds the unsubmitted entries by the number of slots not in hand, below the ring size, so io_uring_get_sqe does not return NULL. |
| UringProgress.SubmitSubmits | origin-liburing/main.c:276 | A submit hands every queued entry, whatever its kind, to the kernel as it was queued, leaves none queued, and changes nothing else. |
| UringProgress.FullRingRefuses | origin-liburing/main.c:115-161 | A prep_ function gets no entry exactly when 2048 are queued. |
| UringProgress.KernelIsFree | origin-liburing/main.c:276-284 | Which executions are possible: of any submitted operation, an accept with any error or any descriptor not open, a recv with any error or octets that fit, a send with any error or part, a close with any result; any executed operation may be handled next. |
| UringSafety.PrepKeeps | origin-liburing/main.c:115-161 | Preparing an operation for a slot in hand always finds an entry and hands the slot, and its buffer, over to the ring. |
| UringSafety.TakeUp | origin-liburing/main.c:281-284 | Reading a completion moves its slot, and nothing else, into the program's hand. |
| UringSafety.GetKeeps | origin-liburing/main.c:72-86 | get_connection yields a client slot that nobody holds, for a connection no slot serves yet. |
| UringSafety.FreeKeeps | origin-liburing/main.c:88-93 | Returning a slot whose life is complete keeps the invariant: no slot is put on the list twice. |
| UringSafety.AcceptKeeps | origin-liburing/main.c:285-296 | An accept completion always arms the listener again and keeps the invariant, except that it kills the process exactly on success with an empty free list. |
| UringSafety.ReadKeeps | origin-liburing/main.c:297-337 | A recv completion, with any result, setsockopt failure and date failure included, keeps the invariant. |
| UringSafety.WriteKeeps | origin-liburing/main.c:338-347 | A send completion, with any result, keeps the invariant. |
| UringSafety.HandleKeeps | origin-liburing/main.c:281-352 | Handling any completion keeps the invariant. |
| UringRuns.DiesOnlyForWantOfASlot | origin-liburing/main.c:72-86 | In every reachable state the process dies while handling a completion if and only if an accept succeeded while every slot was pending or stranded; never for want of a submission entry. |
| UringWitnesses.TheProcessCanDie | origin-liburing/main.c:285-296 | Under every configuration such a state is reachable: clients that connect and stay take all 1023 slots, and the next accept ends the process. |
| UringWitnesses.OneMoreClient | origin-liburing/main.c:285-296 | While a slot is free, one more client can be accepted: it takes a slot, its recv is queued, the listener is armed again. |
| UringSafety.CloseExecutes | origin-liburing/main.c:151-161 | A close that the kernel executes is on an open descriptor owned by the closing slot, and takes it from no other connection, although the number may be reused at once. |
| UringSafety.AcceptExecutes | origin-liburing/main.c:115-126 | A new descriptor, possibly one whose CLOSE completion is unread, belongs to no busy slot. |
| UringSafety.TransferExecutes | origin-liburing/main.c:128-149 | An executed recv or send, with any result the kernel may give, keeps the invariant. |
| UringSafety.TransferTouchesItsBuffer | origin-liburing/main.c:128-149 | An executed recv changes the buffer of the slot that owns the operation and no other field or slot; a send changes none. |
| UringRuns.DescriptorsAreOwned | origin-liburing/main.c:284-351 | Every outstanding recv, send or unexecuted close is on an open descriptor owned by its slot; no two such slots share a descriptor or a connection. |
| UringRuns.CloseFindsItsDescriptor | origin-liburing/main.c:299-351 | Each executed close closes the very connection that its slot serves. |
| UringRuns.ClosedAtMostOnce | origin-liburing/main.c:284-351 | In no run is an accepted connection closed twice. |
| UringRuns.AcceptedIsOpenOrClosed | origin-liburing/main.c:284-351 | Connections are conserved: accepted = open + closed, with no connection in both. |
| UringRuns.HandleFrame | origin-liburing/main.c:281-352 | While one completion is handled, the slots, buffers included, of all other pending operations and those operations themselves stay untouched. |
| UringRuns.SentIsFormatted | origin-liburing/main.c:323-335 | Until the kernel executes a send, its slot's buffer begins with exactly the response that was formatted into it. |
| UringRuns.ExaminedIsDelivered | origin-liburing/main.c:128-135 | When a recv completion is handled the buffer still holds exactly the octets the kernel delivered. |
| UringRuns.RequestIsAnswered | origin-liburing/main.c:304-335 | At every clock reading: a request is answered with one send of the response for the current second, recorded with whether the delivered octets held "Connection: close" (or closed when TCP_NODELAY fails, or stranded when the date cannot be formatted), if and only if TCP_NODELAY failed, or the second is not 0, or a date was formatted before, or the uninitialised buffer gives the same response. |
| UringWitnesses.UninitialisedDateIsSent | origin-liburing/main.c:251-323 | Whatever the date buffer holds at the start and whatever is requested first, there is a run in which that request, handled at second 0, gets a response other than the one for second 0, unless the two are equal. |
| UringRuns.OtherReactions | origin-liburing/main.c:298-347 | An empty or failed recv closes; a finished send closes exactly when the request it answered held "Connection: close", and is followed by a recv otherwise. |
| UringProgress.AcceptReaction | origin-liburing/main.c:285-296 | A successful accept takes the first free slot with all its flags reset, queues its recv on the new descriptor, and arms the listener again; a failed one arms the listener and changes no slot. |
| UringProgress.CloseReaction | origin-liburing/main.c:348-350 | A close completion puts the slot in front of the free list, ends its life, and leaves no operation of it. |
| UringProgress.ResponseOverwritesRequest | origin-liburing/main.c:324-334 | The response and a NUL replace the front of the request in the slot's buffer; the rest of the buffer stays. |
| UringNoDelay.FlagTellsIfAnswered | origin-liburing/main.c:72-86 | In every reachable state the TCP_NODELAY flag of each pending client slot is set if and only if its connection was answered and kept, in a reused slot, too. |
| UringNoDelay.RefusedExactly | origin-liburing/main.c:305-315 | In every run a request is refused for want of TCP_NODELAY if and only if it asks for no close, setsockopt fails, and no earlier request on the same connection was answered and kept it. |
| UringRuns.LivesFollowTheProtocol | origin-liburing/main.c:285-351 | Every finished slot life is READ (WRITE READ)* CLOSE or READ (WRITE READ)* WRITE CLOSE, with "close" held by the last answered request only; every life in progress is the beginning of one. |
| UringProgress.EveryConnectionCanEnd | origin-liburing/main.c:275-354 | From every reachable state, whatever a client's slot is waiting for, some run closes its connection and puts the slot back on the free list; in particular every pending close can be carried out. |
| UringLosses.StepStrands | origin-liburing/main.c:305-323 | A step strands a slot if and only if it handles a request there, TCP_NODELAY does not fail first, the second is not the cached one and has no date; no step takes a stranded slot back. |
| UringLosses.StrandedExactly | origin-liburing/main.c:316-323 | At every point of every run the stranded slots are exactly those that such a step before has stranded. |
| UringLosses.NothingStranded | origin-liburing/main.c:316-323 | A run has stranded no slot if and only if none of its steps was such a step. |
| UringLosses.StrandedForEver | origin-liburing/main.c:318-321 | At every later point of the run a stranded slot is still stranded, is on no list, has no pending operation, and holds the same open descriptor of the same connection. |
| UringWitnesses.ASlotCanBeStranded | origin-liburing/main.c:314-323 | A state with a stranded slot is reachable if and only if some second has no date. |
| UringLosses.WholeResponses | origin-liburing/main.c:335-347 | In every run what has gone out on a connection is the responses it was given, whole and in order, if and only if the kernel sent all of each; otherwise it is shorter. |
| UringLosses.EachIsAResponse | origin-liburing/main.c:323-335 | Everything the kernel is given to send on a connection is a response around some date. |
| UringWitnesses.AResponseCanBeCutShort | origin-liburing/main.c:338-347 | A run in which a client receives something else than whole responses, under every configuration with a response to send. |
| UringServer.Server.constructor | origin-liburing/main.c:260-269 | Start-up builds the machine's initial state from arbitrary slots. |
| UringServer.UnlinkAll | origin-liburing/main.c:53-70 | The descending loop resets descriptor and type of every slot and nothing else. |
| UringServer.Server.ArmListener | origin-liburing/main.c:271-274 | The first slot is taken for the listener and one accept is queued. |
| UringServer.Server.Prep | origin-liburing/main.c:115-161 | The four prep_ functions in place: one queued operation carrying the slot, the slot's type and descriptor, or a refusal exactly when the ring is full. |
| UringServer.Server.GetConnection | origin-liburing/main.c:72-86 | In-place get_connection equals the specification; NULL, and nothing changed, exactly on an empty list. |
| UringServer.Server.FreeConnection | origin-liburing/main.c:88-93 | In-place free_connection equals the specification. |
| UringServer.Server.HandleCompletion | origin-liburing/main.c:281-352 | The switch, in place, is exactly the transition function, death included. |
| UringServer.Server.AcceptCompleted | origin-liburing/main.c:285-296 | The ACCEPT case, in place, is the transition function, NULL slot included. |
| UringServer.Server.ReadCompleted | origin-liburing/main.c:297-337 | The READ case, in place and with the real search loop, is the transition function. |
| UringServer.Server.AnswerRequest | origin-liburing/main.c:316-335 | Date cache, formatting over the request and send, in place, are the transition function. |
| UringServer.Server.TryStep | origin-liburing/main.c:275-354 | A step that the environment offers is performed exactly when the machine can take it, with the machine's result, death included; otherwise nothing changes. |
| UringServer.Server.TakeOffer | origin-liburing/main.c:275-354 | One offer advances the program and the machine alike, keeps the invariant, and ends the process for want of a slot only. |
| UringServer.Serve | origin-liburing/main.c:245-357 | For every schedule the program goes through exactly the states of the machine under that schedule, ends in a reachable state, and stops exactly where the machine does, for want of a slot. |
| UringServer.FollowIsRun | origin-liburing/main.c:275-354 | What the machine does under any schedule is a run from start-up, and where it stops, that step is possible and really ends the process. |
| UringServer.EveryRunIsFollowed | origin-liburing/main.c:275-354 | Every run of the machine is what it does under some schedule, so the schedules of the program leave out none. |
| Pools.FreeList.constructor | origin-liburing/main.c:53-70 | For every n of at least 1 the do-while loop links all slots in index order, without repetition or cycle. |
| Pools.FreeList.Take | origin-liburing/main.c:72-86 | Pops the slot freed last; NULL exactly on the empty list; the rest of the chain stays intact. |
| Pools.FreeList.Give | origin-liburing/main.c:88-93 | Pushes the slot in front; the chain stays acyclic. |
| Search.StrNCaseCmp | origin-liburing/main.c:163-187 | Zero exactly when the two strings agree ignoring ASCII case (no NUL in the second); otherwise the difference at the first place that differs; stops at a common NUL. |
| Search.StrLCaseStrN | origin-liburing/main.c:195-217 | For every haystack and every NUL-free needle of length n + 1, the least index of an occurrence ignoring ASCII case, NULL exactly when there is none; reads in bounds, loops end. |
| Search.HasConnectionClose | origin-liburing/main.c:219-224 | True exactly when the octets contain CR LF "Connection: close" CR LF ignoring ASCII case. |
| Search.TailMatch | origin-liburing/main.c:202-214 | After the first octet matches, comparing n more octets decides whether the needle occurs here. |
| Bytes.SetBit5IsBitwiseOr | origin-c-epoll/main.c:81-90 | The model of `c OR 0x20` is the bitwise operation on every octet. |
| Bytes.SetBit5IsExactFold | origin-c-epoll/main.c:81-90 | `(c OR 0x20) == letter` accepts the two forms of the letter and no other octet. |
| FieldParser.FindCrlf | origin-c-epoll/main.c:58-64 | The end of the line, when it lies within n octets with no CR before it; none exactly when there is no such end. |
| FieldParser.SkipOws | origin-c-epoll/main.c:45-51 | Stops at the first octet that is not optional white space, or at the end. |
| FieldParser.WordTest | origin-c-epoll/main.c:80-104 | The octet-by-octet tests are equality with the word ignoring ASCII case. |
| FieldParser.TestLine | origin-c-epoll/main.c:80-108 | The test of one line succeeds exactly when the line is "connection" ":" OWS "close" OWS, and moves p past the name and the white space of a Connection field and nowhere else. |
| FieldParser.TestValue | origin-c-epoll/main.c:97-105 | The value test succeeds exactly when a lone "close" fills the rest of the line up to OWS. |
| FieldParser.HasConnectionClose | origin-c-epoll/main.c:66-114 | For every memory and length: which lines the walk passes, how far n has drifted when it ends (the name and white space of each Connection field passed), and where and why it ends; the verdict is that of the octets up to `limit`, and equals that of the n octets received whenever these hold a stop or no Connection field with another value; the loop ends. |
| FieldParser.WalkIsUnique | origin-c-epoll/main.c:66-114 | That description of the walk leaves nothing open: lines passed, limit and verdict are determined by memory and length. |
| CutOff.CutOffVerdict | origin-c-epoll/main.c:66-114 | The exact condition on the octets received, complete or cut off, for the verdict to be that of these octets whatever memory holds behind them. |
| CutOff.MemoryDecides | origin-c-epoll/main.c:74-112 | Where the condition fails, memory can bring about either verdict. |
| CutOff.OnlyCompletable | origin-c-epoll/main.c:74-112 | If the walk finds a close behind an unfinished line, that line could become a close field in time, or its end leaves room for one behind it. |
| CutOff.SameUndecided | origin-c-epoll/main.c:66-114 | The condition depends on nothing but the octets received. |
| CutOff.ReachIsRight | origin-c-epoll/main.c:66-114 | The octets received ask for a close exactly when the walk has found it before their last whole line ends. |
| CutOff.ACutOffRequest | origin-c-epoll/main.c:94-112 | A request, cut off in its second Connection field, that asks for nothing and of which memory can make a close. |
| FieldParser.AsksCloseUpToStop | origin-c-epoll/main.c:74-78 | What follows the blank line, or a CR without LF, does not change the verdict. |
| FieldParser.OneMoreLine | origin-c-epoll/main.c:74-112 | Passing one line leaves the verdict open exactly when that line is no close field. |
| FieldParser.WalkEnds | origin-c-epoll/main.c:74-78 | When find_crlf fails or the line is empty, no close field is left before the next stop. |
| Recognisers.ParserFollowsGrammar | origin-c-epoll/main.c:66-114 | On every complete head the walk meets a stop, and its verdict is that some field line before the blank line is a close field. |
| Recognisers.SearchFindsCanonicalFields | origin-liburing/main.c:195-224 | The search matches inside a complete head exactly when some field line is "connection: close", one space and nothing behind. |
| Recognisers.SearchRefinesParser | origin-c-epoll/main.c:66-114 | On complete heads a match of the search inside the head implies the parser's verdict. |
| Recognisers.VerdictsAgree | origin-liburing/main.c:219-224 | The exact condition for the two servers' verdicts on a request to agree: with a close field in the head, a canonical one or a match behind the head; without one, no match behind the head. |
| Recognisers.SearchRefinesParserUnless | origin-liburing/main.c:219-224 | The search's verdict on a request implies the parser's if and only if the head has a close field or there is no match behind it. |
| Recognisers.ParserAcceptsMore | origin-c-epoll/main.c:94-105 | A head on which the parser reports a close and the search does not. |
| Recognisers.SearchReportsABody | origin-liburing/main.c:219-224 | A request on which the search reports a close, found in the body, and the parser does not. |
| Recognisers.SearchLooksPastTheHead | origin-liburing/main.c:219-224 | On every request with a complete head, the search over everything received matches exactly when it matches inside the head or from the head's last CRLF on. |
| EpollSafety.RunsAreSafe | origin-c-epoll/main.c:224-330 | In every run of either server, through every interleaving of accepts, closes and slot reuse inside batches, the invariant holds. |
| EpollSafety.NoEventNamesARecycledSlot | origin-c-epoll/main.c:233-284 | Each unprocessed client event of a batch names a slot that is in use, still holds the open descriptor it was registered with, and still serves the very connection the event was reported for, even where the pair of slot and descriptor number could recur. |
| EpollSafety.TakenSlotServesNewConnection | origin-c-epoll/main.c:268-276 | A slot that is taken, also within a batch, serves a connection that no waiting event and no other slot in use is about. |
| EpollSafety.SerialsGrow | origin-c-epoll/main.c:268-276 | Connections are told apart for good: no step gives a slot a connection that existed before. |
| EpollSafety.ClientOutcome | origin-c-epoll/main.c:277-328 | When exactly a client event keeps its connection; otherwise precisely the event's own descriptor is closed and its slot is the next to be taken; when TCP_NODELAY and the second are recorded; nothing else changes. |
| EpollSafety.AcceptOutcome | origin-c-epoll-mp/main.c:224-265 | What an accepted connection changes in slots, descriptors, registrations, free list and counter, registration failure included, in both servers; no other slot changes. |
| EpollSafety.FailedAccept | origin-c-epoll/main.c:235-243 | An accept that brings nothing changes nothing. |
| EpollSafety.EnvironmentIsFree | origin-c-epoll/main.c:225-236 | Which batches epoll_wait may report and which answers the system calls may give, in every reachable state. |
| EpollHistory.FieldsTellHistory | origin-c-epoll/main.c:250-295 | In every run server_fd_requests is the number of connections accepted, and prev_now the last second at which there was something to answer and a date. |
| EpollHistory.DiesExactly | origin-c-epoll/main.c:225-269 | After every run the process exits exactly when epoll_wait fails, or when a connection is accepted, 16 divides the number accepted before and the listening socket cannot be added again; it dereferences NULL exactly when one is accepted otherwise and every slot is registered or lost. |
| EpollHistory.FlagsTellHistory | origin-c-epoll/main.c:316-325 | In every run TCP_NODELAY is recorded for a registered slot exactly when an earlier request on this very connection was answered and kept it. |
| EpollHistory.KeptExactly | origin-c-epoll/main.c:277-328 | After every run a client event keeps its connection exactly when something was received and either no date could be had, or the answer went out, no close was asked for, and TCP_NODELAY is set now or was set at an earlier request of the connection. |
| EpollSafety.SlotsMatchDescriptors | origin-c-epoll/main.c:234-328 | Slots in use correspond one to one with open registered client descriptors. |
| EpollSafety.SlotsLost | origin-c-epoll-mp/main.c:257-265 | The threaded server never loses a slot; the multi-process server loses exactly one at each failed registration. |
| EpollSafety.CounterIsRightOnlyWhenFull | origin-c-epoll/main.c:136-157 | The counter of free slots, which the misparsed `--` and `++` never change, is right exactly while no slot is out. |
| EpollSafety.ServerKeeps | origin-c-epoll/main.c:234-276 | A listening-socket event keeps the invariant; the exact conditions under which the process exits or dereferences NULL. |
| EpollWitnesses.TheProcessCanDie | origin-c-epoll/main.c:268-269 | In both servers a state is reachable in which the next accepted connection dereferences the NULL slot. |
| EpollWitnesses.DiesWithoutConnections | origin-c-epoll-mp/main.c:257-265 | In the multi-process server such a state is reachable with no connection open at all. |
| EpollSafety.ClientKeeps | origin-c-epoll/main.c:277-328 | A client event on a live slot keeps the invariant on all its branches, given that no later event is about the same descriptor. |
| EpollSafety.CloseKeeps | origin-c-epoll/main.c:159-164 | Closing returns the slot exactly once and closes the descriptor it holds. |
| EpollSafety.RegisterKeeps | origin-c-epoll/main.c:268-276 | A new connection takes a free slot that no waiting event names. |
| EpollSafety.RefuseKeeps | origin-c-epoll-mp/main.c:257-265 | The failure branch of the registration in both servers. |
| EpollSafety.StepKeeps | origin-c-epoll/main.c:224-330 | A new batch and each event of it keep the invariant. |
| EpollServer.EventLoop.HandleBatch | origin-c-epoll/main.c:233-329 | The loop over a batch, in place, goes through exactly the states of the machine on these events and answers, and stops where and why the machine does. |
| EpollServer.EventLoop.HandleTurn | origin-c-epoll/main.c:224-330 | One turn of the outer loop: an error of epoll_wait ends the process, a reported batch is handled. |
| EpollServer.RunEventLoop | origin-c-epoll/main.c:185-331 | For every sequence of batches and errors the program goes through exactly the states of the machine, which are a run from start-up, ends in a reachable state, and stops exactly where and why the machine does. |
| EpollServer.TurnsAreRuns | origin-c-epoll/main.c:224-330 | What the machine makes of any sequence of turns is a run, and where it stops that step really ends the process. |
| EpollServer.EveryRunIsPlayed | origin-c-epoll/main.c:224-330 | Every run that ends between two batches is what the loop makes of some sequence of turns, so the turns leave out none. |
| EpollServer.UnlinkAll | origin-c-epoll/main.c:116-134 | The descending loop leaves every slot without descriptor and TCP_NODELAY. |
| EpollServer.EventLoop.constructor | origin-c-epoll/main.c:203-206 | Start-up on slots with any contents builds the machine's initial state. |
| EpollServer.EventLoop.HandleAnswered | origin-c-epoll/main.c:233-329 | One event, with any answers of the system calls, is one step of the machine, or its halt. |
| EpollServer.EventLoop.ServerEvent | origin-c-epoll/main.c:234-276 | The accept branch, in place, is the transition function, exits included. |
| EpollServer.EventLoop.GetConnection | origin-c-epoll/main.c:136-149 | In-place get_connection with the new descriptor equals the specification; NULL, and nothing changed, exactly on an empty list. |
| EpollServer.EventLoop.Admit | origin-c-epoll/main.c:268-276 | Slot and registration of a new connection, in place. |
| EpollServer.EventLoop.RegistrationFailed | origin-c-epoll-mp/main.c:261-265 | What each server does with the slot and descriptor that could not be registered. |
| EpollServer.EventLoop.ClientEvent | origin-c-epoll/main.c:277-328 | The client branch, in place, is the transition function on all its early exits. |
| EpollServer.EventLoop.CloseConnection | origin-c-epoll/main.c:159-164 | The slot goes back on the list and its descriptor is closed and deregistered. |
| ThreadPool.RunsAreSafe | origin-toysync/src/main.rs:50-93 | In every interleaving, at every point, the pool's invariant holds and the number of workers is the size. |
| ThreadPool.Conservation | origin-toysync/src/main.rs:66-93 | The jobs sent are those taken, in order, followed by those queued; those taken are, each as often as it was taken, the ones running, finished or panicked; at most `size` run. |
| ThreadPool.RunsWhatItTook | origin-toysync/src/main.rs:85-91 | A running worker runs exactly the job that it took last. |
| ThreadPool.OneHolder | origin-toysync/src/main.rs:85-91 | At most one worker holds the receiver, and none holds it while running a job. |
| ThreadPool.PanicIsContained | origin-toysync/src/main.rs:85-91 | A panicking job ends its own worker only and leaves lock, queue and the other workers alone. |
| ThreadPool.ExecuteFailsWhenAllPanicked | origin-toysync/src/main.rs:66-73 | While the pool exists the lock is never poisoned, and execute fails exactly when as many jobs have panicked as there were workers. |
| ThreadPool.New | origin-toysync/src/main.rs:50-64 | Zero is refused; otherwise exactly `size` idle workers over an empty queue. |
| ThreadPool.WhatWorkersCanDo | origin-toysync/src/main.rs:85-91 | In every reachable state a running job may return and may panic; a worker between jobs can lock exactly when nobody holds the receiver; its holder can receive exactly when a job is queued or the sender is gone. |
| ThreadPool.WhatWorkersBecome | origin-toysync/src/main.rs:85-91 | The full effect of each worker step: lock, poisoned or not; recv, of a job or of the disconnection; return; panic. |
| ThreadPool.WhatTheOwnerCanDo | origin-toysync/src/main.rs:66-73 | execute succeeds exactly while some worker lives and puts the job at the end of the queue; the pool can be dropped at any time. |
| ThreadPool.SomebodyCanMove | origin-toysync/src/main.rs:85-91 | With a job queued and a live worker that runs none, some worker can lock or receive. |
| ThreadPool.HeadOfQueueCanFinish | origin-toysync/src/main.rs:85-91 | From every reachable state with a live worker some run without a panic takes the job at the head of the queue next and finishes it. |
| ThreadPool.EveryJobCanFinish | origin-toysync/src/main.rs:85-91 | From every reachable state with a live worker, one is enough, some run without a panic takes every job that was sent and finishes as many more as were queued. |
| ThreadPool.TakingGetsCloser | origin-toysync/src/main.rs:85-91 | While a job is queued, a lock brings the next take closer, a recv takes the first job, and nothing sets this back. |
| ThreadPool.WorkerStepsDecrease | origin-toysync/src/main.rs:85-91 | Every worker step lowers the work that remains. |
| ThreadPool.ShutdownIsBounded | origin-toysync/src/main.rs:85-91 | After the sender is dropped, a run is no longer than the work that remained. |
| ThreadPool.ShutdownIsComplete | origin-toysync/src/main.rs:85-91 | When nothing can move any more all workers are dead; unless all died of panics, every job sent was taken, exactly one worker saw the disconnection and the others the poisoned lock. |
| ThreadPool.NobodyLeavesEarly | origin-toysync/src/main.rs:85-91 | No worker leaves on disconnection or a poisoned lock while a job is queued or can still be sent. |
| Framing.Encode | origin-tokio/src/main.rs:78-105 | Appends exactly the wire form of the response to what the buffer holds. |
| Framing.ResponseRoundTrip | origin-tokio/src/main.rs:78-105 | A reader that follows section 6.3 of RFC 9112 (lists of equal lengths, transfer codings, bodies that end with the stream) gets back status, fields in order and body, and stops exactly at the end, if and only if the response is delimited, whatever follows in the stream, or ends with the stream and nothing follows. |
| Framing.StreamRoundTrip | origin-tokio/src/main.rs:78-105 | The concatenated outputs for any sequence of such responses, only the last of which may end with the stream, split back into exactly those responses in order. |
| Framing.DecimalRoundTrip | origin-tokio/src/main.rs:84-92 | The Content-Length written is the decimal numeral of the body's length. |
| Framing.EncodedExtent | origin-tokio/src/main.rs:78-105 | How far a reader takes the body of an encoded response to extend, in all five cases of status, transfer coding and lengths. |
| Framing.BodyRoundTrip | origin-tokio/src/main.rs:103-105 | A body is read back as it was put in exactly when its length is the one found, or it ends with the stream; never through a chunked coding. |
| Framing.WireDeterminesResponse | origin-tokio/src/main.rs:78-105 | Different responses, or different dates, have different encodings. |
| Framing.RepeatedLengthIsDelimited | origin-tokio/src/main.rs:98-105 | A response that repeats its own length as a list is among those that read back. |
| Framing.OtherLengthIsNotDelimited | origin-tokio/src/main.rs:98-105 | A response that brings another length is not read back, whatever follows. |
| Framing.ServerResponseIsDelimited | origin-tokio/src/main.rs:60-69 | The response to every request is one of those that read back. |
| Framing.ServerResponseOctets | origin-tokio/src/main.rs:60-105 | The octets of the response to every request, line by line. |
| Decode.DecodeOne | origin-tokio/src/main.rs:138-199 | For every buffer, in terms of the parser's result and the libraries alone (`Answers`): unfinished heads leave the buffer unchanged; a head is accepted if and only if its method is known, its version is 1, every value is good and the request made of its pieces can be built, and then method, uri, names and values are the slices of the buffer that the parser named; each error has its exact condition; and how much is removed. That the ranges lie inside the head is an assumption about the parser. |
| Decode.VerdictAnswers | origin-tokio/src/main.rs:143-198 | The specification function meets the same description for every buffer. |
| Decode.Collect | origin-tokio/src/main.rs:186-193 | All fields in order, or an error exactly when some value is refused. |
| Decode.MoreInput | origin-tokio/src/main.rs:138-199 | More input changes neither a verdict of the decoder, nor how much it takes, nor what it leaves before the new octets. |
| Decode.Process | origin-tokio/src/main.rs:44-58 | For every way of cutting the stream into reads, the requests yielded and the outcome are those of decoding the whole stream at once, and the octets sent are one response for each request yielded. |
| Decode.ServeNext | origin-tokio/src/main.rs:44-58 | A verdict on the octets read so far is the next step of the service of the whole stream. |
| Decode.ServeTakesHeadsInOrder | origin-tokio/src/main.rs:44-58 | The requests yielded for a stream are those of the heads that lie in it one behind the other; the connection ends well if and only if nothing is left behind the last one, and otherwise for the reason found there. |
| Decode.MoreStream | origin-tokio/src/main.rs:44-58 | Requests yielded for a stream are yielded for each continuation, and a fault other than an unfinished head is final. |
| Decode.PipelinedHeads | origin-tokio/src/main.rs:44-58 | Heads sent one behind the other are all yielded, in order, and the connection ends without an error. |
| Decode.CutsDoNotMatter | origin-tokio/src/main.rs:44-58 | Two ways of cutting the same stream into reads yield the same requests and the same outcome, whatever later reads would bring after the end. |
| Decode.OneResponseEach | origin-tokio/src/main.rs:44-105 | The client reads back one response for each request, in order, and nothing else. |
| DateCache.LastRenderedNow.constructor | origin-toysync/src/date.rs:39-43 | A new thread's cache: key 0 and no text. |
| DateCache.LastRenderedNow.WriteStr | origin-toysync/src/date.rs:77-83 | Appends behind the filled part, or panics, changing nothing, exactly when the 128 octets are exceeded. |
| DateCache.LastRenderedNow.Update | origin-toysync/src/date.rs:67-71 | Replaces key and text, and says exactly when rendering panics and what that leaves behind. |
| DateCache.LastRenderedNow.Fmt | origin-toysync/src/date.rs:45-60 | The text written, or a panic, and the cache it leaves. |
| DateCache.FillsWhenItFits | origin-toysync/src/date.rs:77-83 | The pieces end up in the buffer as one text exactly when they fit together. |
| DateCache.CacheHoldsItsSecond | origin-tokio/src/main.rs:247-274 | After any run of clock readings the cache holds what was rendered when the current run of equal seconds began. |
| DateCache.DateIsRight | origin-tokio/src/main.rs:247-274 | The exact condition for the written date to be that of the clock reading, over all runs of readings of a thread that survives a panic, readings before 1970 included. |
| DateCache.WrongOnlyAtTheEpoch | origin-toysync/src/date.rs:39-60 | With a clock never before 1970, a date is wrong exactly when the thread has seen nothing but second 0, and is then empty. |
| DateCache.WrongAfterTheEpoch | origin-tokio/src/main.rs:247-274 | Readings after which a thread that has seen another second writes an empty date at second 0. |

## Left out

- Liveness of the engine: that a connection *can* always end is proved, not that it does; the kernel need not execute what it was handed.
- HasConnectionClose: what memory holds behind the octets received is arbitrary; that reading there may leave the buffer is not modelled.
- The epoll servers' responses: a short `writev` counts as written there, too, and the octets that go out are not modelled.
- ResponseRoundTrip: the decoder of the chunked transfer coding is a parameter, of which only its overhead is used, and list elements are what stands between commas, so commas inside quoted parameters of a transfer coding are not recognised.
- Comma lists in a Connection field: neither recogniser accepts them, and the grammar proved is the lone option `close`.
- Pointers below the start of the request in the search (`last -= n` on a request shorter than the needle) are plain negative numbers here.
- The slots' buffers are sequences inside the slot values of an array, updated as a whole; aliasing between a slot and the kernel is the machine's own state, shared by both sides' steps.
- The thread pool is modelled on values, one step for each blocking call or job; fairness of the mutex and the spawning and joining of threads are not modelled.
- Epoll request contents and responses: the recogniser's verdict and the system calls' results are arbitrary answers; the date cache there works as in the io_uring server.
- Edge-triggered readiness: whether epoll_wait reports a descriptor again is the environment's choice, so liveness of connections is not stated.
- What `Framed` does when a send fails: the model's sends succeed; the encoder of the Tokio server never fails.
- Rewriting of field names to lower case and other normal forms of the http crate, and its grammar.
- Responses to HEAD and CONNECT requests: the reader in `Framing` assumes neither.
- The blocking loop of `origin-c-sync/main.c`: one connection at a time, with a close on each way out of its loop; its recogniser is the search proved here.
- Calendar arithmetic, `strftime`, `snprintf` and `httpdate`: parameters.
- Sockets, fork, pthread, CPU affinity, and the internals of io_uring and epoll.
- `origin-actix`, `origin-hyper`, `origin-ntex`, `origin-pingora`, `origin-heph` and the proxies: layers over frameworks that are not in the repository.
- `src/main.rs`, `build.rs`, scripts and configuration files: process launching and output.
