# A verified model of http-proxy-cpp

The repository is an HTTP proxy built on Asio, with Boost.Asio and Boost.Align
vendored beside it. This project models the parts whose behaviour is hardest to see
by reading one function, and proves what they promise.

- **The proxy session** (`Relay`, `RelayShape`, `RelayFlow`, `RelayLink`,
  `RelayFraming`, `RelayHeaders`, `RelayFragments`, `RelayBodies`, `RelayExamples`,
  `RelayDrain`, `RelayProgress`, `ProxySession`). One `Socket` is a
  chain of completion handlers: read a request, find the server, write the request,
  read the reply, write the reply, and start over, with a timer and a `stopped` flag
  beside it. `Relay` gives every handler as a function on a state value; an event is
  the completion of one `async_read_some`, `async_write_some`, resolve, connect or
  timer wait, and the environment chooses all of them: how TCP cuts the streams,
  which operation completes next, and with what error. The composed operations
  (`async_read_until`, `async_read`, `async_write`) are part of the state machine.
  `ProxySession.Socket` is the class with its fields updated in place; each of its
  methods, from `HandleWait` to `Close`, one for each method and handler of
  Socket.cpp:19-284, is proved to do what the function of the same name says, and `Complete`
  keeps objects in reachable states and ensures what the theorems say of those.
  `RelayExamples` has the runs in which a framing property fails, on the requests of
  `SampleRequests`.
- **The header functions** (`Search`, `Http`, `Chunked`): `find_ci`, `parse_field`
  with its `size_t` arithmetic and its two `erase` statements, `stoul`, Asio's
  restartable delimiter search, and the chunked coding of section 7.1 of RFC 9112
  that `read_body` recognises by its last chunk.
- **`basic_streambuf`** (`StreambufLayout`, `Streambuf`): a growable array that is
  shifted and reallocated behind the get and put pointers, and refines a bounded
  queue.
- **`basic_socket_streambuf`** (`SocketBuffering`, `SocketStreambuf`): the send and
  receive loops between a stream user and the kernel.
- **Boost.Align and the hidden words** (`Align`, `HiddenPointers`): the mask
  arithmetic, and the two allocators that hide a base pointer or a distance beside an
  over-aligned block, with memory as bytes.
- **`any_completion_handler`** (`CompletionHandlers`): who owns the erased handler.
  `Program` is a set of wrapper objects on which a run of operations is performed.
- `Numbers` holds minimum and maximum.

Several things the code could be expected to guarantee hold only under a condition.
Each is proved with its exact condition, and has a lemma at an input where it fails:

- A body announced by Content-Length completes if and only if no more came along with
  the header than was announced (`RelayFraming.CountedReadEnds`). Otherwise the
  remaining length wraps to almost 2^64 and the message is never relayed:
  `RelayExamples.SurplusStalls` reaches that state with one byte announced and more sent.
- The end of a chunked body is found at its true end if and only if no single chunk,
  rendered with its size line, contains `0 CRLF CRLF` (`Chunked.LastChunkOnlyAtEnd`).
  Where one does, the message can be cut inside the chunk
  (`RelayExamples.HiddenPatternCutsShort`, `Chunked.EarlyEnd`).
- For bodies that hide no pattern, the read ends when the body has arrived if and only if
  its last five bytes are not divided between the header read and the body read
  (`RelayBodies.ChunkedAtHeader`, `RelayBodies.ChunkedReadEnds`);
  `RelayExamples.DividedLastChunkStalls` divides them. That much completes for every
  chunked body, pattern or not (`RelayBodies.WholeBodyIsRead`).
- Content-length messages do not depend on how TCP cuts the stream
  (`RelayFragments.CountedAgree`, and for whole sequences of messages of any kind
  `RelayFragments.FragmentationIndependence`). Two runs over one stream agree on a
  message without a body if and only if as many bytes had arrived when its header was
  complete (`RelayFragments.BodylessAgreeExactly`; `RelayExamples.BodylessDependsOnCut`
  has two runs that differ), and on a chunked message if and only if as many had arrived
  when its read ended, which is put in terms of the two arrivals that matter
  (`RelayFragments.ChunkedAgreeExactly`; two that differ:
  `RelayExamples.ChunkedDependsOnCut`).
- `prepare` throws exactly where documented, but a throwing `prepare` has already moved
  the characters; it leaves the readable data alone exactly when nothing was consumed
  or the data repeats itself at that distance (`StreambufLayout.ThrowingReserve`;
  `StreambufLayout.ThrowCanChangeData`).
- `commit` and `consume` move what was asked for if and only if that is below 2^31
  (`StreambufLayout.CommitExactly`, `StreambufLayout.ConsumeExactly`;
  `StreambufLayout.CommitCanGoBack`, `StreambufLayout.ConsumeCanGoBack`).
- A failing call on a socket stream keeps the bytes together if and only if nothing is
  buffered, the call does not flush, or the kernel takes nothing before the failure
  (`SocketBuffering.FailureConservesExactly`). Otherwise the next flush sends them again
  (`SocketBuffering.ResendsAfterFailure`).
- `align_up` is the least multiple not below its argument if and only if adding the mask
  does not overflow (`Align.AlignUpExactly`; `Align.AlignUpCanWrap`).

## Model

| member | source | states |
|---|---|---|
| `Search.PartialSearchLoop` | include/boost/asio/impl/read_until.hpp:47-71 | the two nested loops stop at the first index where the text contains the delimiter or ends while agreeing with it |
| `Search.ResumedScanIsFullSearch` | include/boost/asio/impl/read_until.hpp:2201-2297 | resuming the search where the last one left off finds a delimiter exactly when the whole buffer has one, and finds the first, however the bytes were cut |
| `Http.ToLowercase` | utils.cpp:3-6 | in place, each capital of the alphabet becomes its small letter and every other character stays |
| `Http.LowerCharExactly` | utils.cpp:3-6 | `tolower` takes the i-th capital to the i-th small letter and leaves every other character |
| `Http.LowerExactly` | utils.cpp:3-6 | so it is for each character of a string; no capital is left, and lower-casing again changes nothing |
| `Http.FindCiIsFindLower` | utils.cpp:8-15 | the case-insensitive search succeeds exactly when the lower-cased text contains the lower-cased needle |
| `Http.IdentifyBodyExactly` | utils.cpp:17-25 | exactly which headers are taken to announce a length, a chunked body or none; a content length wins, and the search inside `parse_field` then finds the field |
| `Http.ParseFieldByErasing` | utils.cpp:27-44 | the edits of the local copies compute the specification, including the exception and the invalid iterator range |
| `Http.ParseFieldMeaning` | utils.cpp:27-44 | for every text and name: it throws exactly when the value would start past the end, else it is the rest of the line without leading spaces, and undefined exactly when another space is left; a missing field reads from the offset `npos` wraps to |
| `Http.TrimOnceStrips` | utils.cpp:36-38 | the first `erase` removes the leading spaces and nothing else |
| `Http.TrimAgainMeaning` | utils.cpp:39-42 | the second `erase` is harmless exactly when no space is left |
| `Http.ParseFieldRoundTrip` | utils.cpp:27-44 | in a rendered header whose first match of the name is the field's own line, the lower-cased value comes back whatever the padding |
| `Http.ParseFieldStable` | Socket.cpp:91-93 | a field found inside the header has the same value however much of the body has arrived |
| `Http.StoulRoundTrip` | Socket.cpp:128 | a written length is read back, and is an exception exactly when it does not fit 64 bits |
| `Http.StoulMeaning` | Socket.cpp:128 | behind white space, a sign and zeros the number is read, whatever follows; a minus negates it modulo 2^64 |
| `Http.StoulNeedsDigit` | Socket.cpp:128 | where no digit follows, there is an exception |
| `RelayShape.SingleTokenInOrder` | Socket.cpp:19-261 | in every reachable state at most one operation and one timer wait are pending, the operation belongs to the last message, and the completed stages are read request, write request, read reply, write reply of message 0, 1, 2 and so on |
| `RelayShape.ReferencesStayValid` | Socket.cpp:49-59 | every step leaves finished exchanges alone, only lengthens the last one, and no pending handler holds a reference into `messages` from before it grew |
| `RelayFlow.RelayConserves` | Socket.cpp:49-261 | in both directions and over every run, the bytes read are the messages in order plus the body now being read, and the bytes written are all earlier messages and a prefix of the last one |
| `RelayLink.RequestsReachTheirHost` | Socket.cpp:148-208 | every request ever written went over a connection to an endpoint resolved from that request's own host, although connections are reused |
| `RelayHeaders.RoutedByHostLine` | Socket.cpp:91-208 | a request that starts with a rendered header, whose first mention of the name is its Host field, was written over a connection to the host on that line |
| `RelayLink.ReconnectsOnlyWhenNeeded` | Socket.cpp:148-156 | while a host is being resolved, the server socket is closed or connected to another host |
| `RelayLink.RepliesComeFromTheirServer` | Socket.cpp:192-242 | every reply was read over the very connection its request was written to, and the server socket stays that connection from the first byte of the request to the last of the reply |
| `RelayLink.RoutedExactly` | Socket.cpp:59-94 | a request gets its host with the arrival that completes its header, exactly if the session runs, the header is accepted and a host can be read; otherwise the chain ends there |
| `RelayLink.RoutedByOwnField` | Socket.cpp:91 | if the field stands inside the header, the routing host is the one `parse_field` reads in the complete request |
| `RelayFraming.CompletedMessagesAreFramed` | Socket.cpp:97-146 | every message that was read to its end is framed by its own header and by what had arrived with it |
| `RelayFraming.CountedMessageLength` | Socket.cpp:127-135 | below 2^64 bytes, a completed message with a content length is exactly the header and that many bytes, no more of which came along with the header |
| `RelayHeaders.LengthByContentLengthLine` | Socket.cpp:127-135 | a completed message that starts with a rendered header, whose first mention of the name is a Content-Length field with the decimal value n, is that header and n bytes |
| `RelayFraming.CountedReadEnds` | Socket.cpp:127-135 | with no more surplus than announced the read ends with the arrival that completes the announced length; with more it never ends by an arrival |
| `RelayFraming.DelimitedReadEnds` | Socket.cpp:57-60 | a delimited read ends exactly with the arrival after which its own buffer contains the delimiter |
| `RelayFragments.FragmentationIndependence` | Socket.cpp:127-135 | any two runs over the same byte stream cut the same messages, however TCP delivers them, if and only if the messages without a content length come out equally long; so always, if all have one |
| `RelayFragments.CountedAgree` | Socket.cpp:127-135 | a message with a content length is cut the same by any two runs that agree on the messages before it, whatever those are |
| `RelayFragments.BodylessAgreeExactly` | Socket.cpp:109-113 | two runs over one stream that agree so far agree on a message without a body if and only if as many bytes of it had arrived when its header was complete |
| `RelayFragments.ChunkedAgreeExactly` | Socket.cpp:136-145 | two such runs agree on a chunked message if and only if as many bytes had arrived when its read ended: at the header, if the pattern came along; else, after equal headers, if the completing arrivals brought as much beyond the pattern |
| `RelayBodies.BodylessIsWhatArrived` | Socket.cpp:109-113 | the arrival that completes the header of a message without a body ends its read, and the message is everything that had arrived |
| `RelayBodies.ChunkedAfterHeader` | Socket.cpp:136-145 | after a header that announces chunks the read ends at once exactly if the surplus contains the pattern, and else a read with an empty buffer is started |
| `RelayBodies.ChunkedAtHeader` | Socket.cpp:136-145 | if no chunk hides the pattern, the read ends with the header exactly if the whole body came along |
| `RelayBodies.ChunkedReadEnds` | Socket.cpp:136-145 | if no chunk hides the pattern, an arrival at the body read ends it exactly if nothing is missing and the last five bytes came in that read; the message is then header and body and nothing more |
| `RelayBodies.WholeBodyIsRead` | Socket.cpp:136-145 | for every chunked body the read has ended when the body has arrived, if its last five bytes came in the body read |
| `RelayExamples.BodylessDependsOnCut` | Socket.cpp:109-113 | two sessions get one byte stream in different pieces and relay different first messages |
| `RelayExamples.ChunkedDependsOnCut` | Socket.cpp:136-145 | so they do when the first message is chunked and more follows its end |
| `RelayExamples.SurplusStalls` | Socket.cpp:127-135 | a session reaches a counted read with more surplus than was announced, the state from which no arrival ends the read |
| `RelayExamples.DividedLastChunkStalls` | Socket.cpp:136-145 | a session has read a whole chunked request, whose last chunk came in two pieces, and is still waiting |
| `RelayExamples.HiddenPatternCutsShort` | Socket.cpp:136-145 | a session ends a well-formed chunked request inside its only chunk, seven bytes early |
| `Chunked.EndsInLastChunk` | Socket.cpp:136-145 | every trailer-free chunked body ends in the pattern searched for |
| `Chunked.LastChunkOnlyAtEnd` | Socket.cpp:136-145 | a well-formed body contains the pattern at its true end first, if and only if no single rendered chunk contains it |
| `Chunked.EarlyEnd` | Socket.cpp:136-145 | a well-formed body of one chunk, fifteen bytes long, in which the pattern is found at offset three |
| `Chunked.WholeBodyIsDetected` | Socket.cpp:136-145 | for every chunked body, one of the two searches succeeds on what has arrived, unless the last five bytes are divided |
| `Chunked.DetectionExactly` | Socket.cpp:136-145 | for bodies that hide no pattern, one of them succeeds if and only if all has arrived and the last chunk came in one piece |
| `RelayDrain.StoppedSessionsDrain` | Socket.cpp:264-284 | after a stop, over every continuation: it stays stopped, at most three handlers run, each lowers the rank, at most one operation is started and only by a body read, and the timer is not renewed |
| `RelayDrain.StepDrains` | Socket.cpp:106-126 | one step of a stopped session: the rank falls exactly when a handler runs |
| `RelayDrain.StopsExactly` | Socket.cpp:26-47 | a session stops at the timeout, a failed resolve or connect, a client that closes, or a server that resets, and at nothing else |
| `RelayDrain.WatchdogStays` | Socket.cpp:40-46 | a running session keeps its timer wait through every step, except when the wait fails with something else than a cancellation |
| `RelayDrain.FatalErrors` | Socket.cpp:59-77 | exactly which failed reads and writes let an exception out of a handler, stopped or not |
| `RelayDrain.LiveExactlyWhilePending` | Socket.cpp:26-47 | something can happen exactly while a handler holds the session, and a cancellation alone lets that handler run |
| `RelayProgress.EveryStepGoesOn` | Socket.cpp:19-261 | every step of every reachable session: the chain of handlers goes on exactly if no end cause holds, and with the operation that is due; an exception arises exactly if a cause throws it; the connection is given up and made as the event says, the bytes read and written are the event's |
| `RelayProgress.SessionStarts` | Socket.cpp:10-24 | a new session runs, with one timer wait and one read into an empty first exchange |
| `RelayProgress.WatchedExactly` | Socket.cpp:19-47 | over every run from the start: a session that has not stopped has its timer wait exactly if no wait has failed with something else than a cancellation |
| `RelayProgress.OperationsConserved` | Socket.cpp:19-261 | in every reachable state, every operation started is pending or has run its handler |
| `RelayProgress.HistoryIsTheEvents` | Socket.cpp:49-261 | over every run, the bytes that conservation speaks of are those the events brought and took |
| `Relay.ReachableStep` | Socket.cpp:19-261 | completions lead from reachable states to reachable states |
| `ProxySession.Socket.constructor` | Socket.cpp:10-17 | the state a session is constructed in |
| `ProxySession.Socket.StartSession` | Socket.cpp:19-24 | waits for the timer and the first request, and the state is reachable and safe; one timer wait and one read into an empty exchange are pending |
| `ProxySession.Socket.HeaderArrived` | include/boost/asio/impl/read_until.hpp:2201-2297 | one completion of the delimited read: commit, scan, go on or call the handler |
| `ProxySession.Socket.BodyArrived` | include/boost/asio/impl/read.hpp:870-914 | one completion of a body read, counted or delimited |
| `ProxySession.Socket.Complete` | Socket.cpp:19-261 | any possible completion does the specified step; the chain goes on exactly if no cause ends it, with the operation that is due, and throws exactly if a cause does; the object stays reachable, and with that the order of stages, conservation in both directions, the host and connection of each request and reply, and the framing of each finished message hold of it |
| `ProxySession.ReachableIsSafe` | Socket.cpp:19-261 | all of these hold of every reachable state |
| `StreambufLayout.ConstructOk` | include/boost/asio/basic_streambuf.hpp:132-142 | a new buffer is empty, satisfies the pointer invariant, and has room for 128 characters or its maximum |
| `StreambufLayout.ReserveExactly` | include/boost/asio/basic_streambuf.hpp:309-347 | throws if and only if size plus request exceeds the maximum; otherwise the invariant, the room and the readable data are there on all three paths, it shifts only if it must, and it grows to just what is asked for |
| `StreambufLayout.ThrowingReserve` | include/boost/asio/basic_streambuf.hpp:323-341 | what a throw leaves behind, and exactly when the readable data survives |
| `StreambufLayout.ThrowCanChangeData` | include/boost/asio/basic_streambuf.hpp:323-341 | a buffer reached by two calls, and a request whose exception changes the readable data |
| `StreambufLayout.CommitExactly` | include/boost/asio/basic_streambuf.hpp:234-239 | moves the smaller of the request and the room if and only if that fits an int, and then appends just those characters |
| `StreambufLayout.ConsumeExactly` | include/boost/asio/basic_streambuf.hpp:248-255 | removes the smaller of the request and the size if and only if that fits an int |
| `StreambufLayout.CommitCanGoBack` | include/boost/asio/basic_streambuf.hpp:234-239 | in a buffer reached by one `prepare`, committing 2^31 characters moves the put pointer back by as many |
| `StreambufLayout.ConsumeCanGoBack` | include/boost/asio/basic_streambuf.hpp:248-255 | in a buffer reached by three calls, consuming 2^31 characters moves the get pointer back by as many |
| `StreambufLayout.UnderflowExactly` | include/boost/asio/basic_streambuf.hpp:264-275 | exposes every character put since the last update and consumes none |
| `StreambufLayout.OverflowExactly` | include/boost/asio/basic_streambuf.hpp:284-307 | throws exactly when the buffer is full, otherwise appends exactly the character, whichever growth it picks |
| `StreambufLayout.ReadSizeNeverOvercommits` | include/boost/asio/basic_streambuf.hpp:354-360 | at most what is wanted and what fits, positive unless one of them is zero, no subtraction below zero, and the `prepare` that follows does not throw; it is the most that is wanted, fits, and is few or has storage |
| `StreambufLayout.PerformRefines` | include/boost/asio/basic_streambuf.hpp:193-347 | each call answers as a bounded queue would and keeps representing it |
| `StreambufLayout.BufferRefinesQueue` | include/boost/asio/basic_streambuf.hpp:193-347 | every sequence of calls is answered as by a bounded queue, up to the first exception |
| `StreambufLayout.NothingLostOrReordered` | include/boost/asio/basic_streambuf.hpp:63-69 | after any calls that did not throw, what was consumed followed by `data()` is what was committed or put, and size never exceeds the maximum |
| `Streambuf.BasicStreambuf.constructor` | include/boost/asio/basic_streambuf.hpp:132-142 | allocates and sets the pointers as specified |
| `Streambuf.BasicStreambuf.SizeOf` | include/boost/asio/basic_streambuf.hpp:159-162 | `size()` is the length of `data()` and within the maximum |
| `Streambuf.BasicStreambuf.MoveToFront` | include/boost/asio/basic_streambuf.hpp:322-327 | the overlapping move inside the array gives the shifted contents |
| `Streambuf.BasicStreambuf.Grow` | include/boost/asio/basic_streambuf.hpp:334-335 | a new array with the old contents in front |
| `Streambuf.BasicStreambuf.Reserve` | include/boost/asio/basic_streambuf.hpp:309-347 | the in-place shift and reallocation compute the specified layout, with no `size_t` operation out of range |
| `Streambuf.BasicStreambuf.Prepare` | include/boost/asio/basic_streambuf.hpp:215-220 | exact exception condition; the region lies in the array and the data is untouched |
| `Streambuf.BasicStreambuf.Commit` | include/boost/asio/basic_streambuf.hpp:234-239 | the pointers move as specified and the invariant stays below 2^31 |
| `Streambuf.BasicStreambuf.Consume` | include/boost/asio/basic_streambuf.hpp:248-255 | the lagging end of the get area is repaired and the front moves as specified |
| `Streambuf.BasicStreambuf.Underflow` | include/boost/asio/basic_streambuf.hpp:264-275 | returns the first readable character or eof |
| `Streambuf.BasicStreambuf.Overflow` | include/boost/asio/basic_streambuf.hpp:284-307 | exact exception condition; otherwise the data gains the character |
| `SocketBuffering.SendAll` | include/boost/asio/basic_socket_streambuf.hpp:450-483 | never more than the data is handed on, and the loop succeeds exactly when all of it was |
| `SocketBuffering.SendingStops` | include/boost/asio/basic_socket_streambuf.hpp:450-483 | the loop fails with the first turn that neither takes bytes nor makes the socket ready: with the sum of what was taken before, that turn's error, and the turns behind it; without one the time runs out |
| `SocketBuffering.SendingEnds` | include/boost/asio/basic_socket_streambuf.hpp:450-483 | it succeeds with the turn in which the last byte is taken, and leaves the rest |
| `SocketBuffering.SendsExactly` | include/boost/asio/basic_socket_streambuf.hpp:428-518 | which calls ask the kernel: a character that fits stays in the put area, unbuffering sends nothing, every other call hands on what is pending |
| `SocketBuffering.PerformConserves` | include/boost/asio/basic_socket_streambuf.hpp:428-518 | a successful call keeps sent bytes and put area equal to what was put, and a flush leaves nothing pending |
| `SocketBuffering.FailureSendsPrefix` | include/boost/asio/basic_socket_streambuf.hpp:450-483 | a failing call has sent a prefix of what was pending and changed nothing else |
| `SocketBuffering.FailureConservesExactly` | include/boost/asio/basic_socket_streambuf.hpp:450-483 | conservation survives a failing call if and only if nothing is buffered, the call does not flush, or the first turn that is not a retry takes nothing; the next successful flush sends all of the put area again |
| `SocketBuffering.ResendsAfterFailure` | include/boost/asio/basic_socket_streambuf.hpp:450-483 | two characters, of which one is taken before an error: the next flush sends three in all |
| `SocketBuffering.OutputConservation` | include/boost/asio/basic_socket_streambuf.hpp:428-518 | for every pattern of partial sends, retries and mode changes without a failure, sent bytes and put area are the characters put |
| `SocketBuffering.ReceiveExactly` | include/boost/asio/basic_socket_streambuf.hpp:384-425 | the loop polls while the socket only gets ready and ends with the first other turn: up to 504 delivered bytes, eof for none, or its error |
| `SocketBuffering.UnderflowExactly` | include/boost/asio/basic_socket_streambuf.hpp:374-426 | an empty get area takes just these bytes, which count as received, and stays empty exactly if that turn brings none; a get area in use is left alone |
| `SocketBuffering.BumpConserves` | include/boost/asio/basic_socket_streambuf.hpp:374-426 | reading one character loses none and yields none only at the end |
| `SocketBuffering.InputConservation` | include/boost/asio/basic_socket_streambuf.hpp:374-426 | what was read and what is left in the get area are the bytes received, in order |
| `SocketStreambuf.BasicSocketStreambuf.constructor` | include/boost/asio/basic_socket_streambuf.hpp:161-167 | buffered, nothing pending, nothing to read |
| `SocketStreambuf.BasicSocketStreambuf.Send` | include/boost/asio/basic_socket_streambuf.hpp:450-483 | the send loop hands on the specified prefix and reports the specified error |
| `SocketStreambuf.BasicSocketStreambuf.Overflow` | include/boost/asio/basic_socket_streambuf.hpp:428-500 | both modes as specified, on the array |
| `SocketStreambuf.BasicSocketStreambuf.Put` | include/boost/asio/basic_socket_streambuf.hpp:428-500 | a character goes into the put area or through `overflow` |
| `SocketStreambuf.BasicSocketStreambuf.Sync` | include/boost/asio/basic_socket_streambuf.hpp:502-505 | a flush |
| `SocketStreambuf.BasicSocketStreambuf.SetBuf` | include/boost/asio/basic_socket_streambuf.hpp:507-518 | buffering is switched off only when nothing is pending |
| `SocketStreambuf.BasicSocketStreambuf.Underflow` | include/boost/asio/basic_socket_streambuf.hpp:374-426 | a refill puts the bytes of the first delivery in the turns behind the putback area, and otherwise the get area stays as it was |
| `SocketStreambuf.BasicSocketStreambuf.Bump` | include/boost/asio/basic_socket_streambuf.hpp:374-426 | takes the next character or reports the end |
| `Align.IsAlignedExactly` | include/boost/align/is_aligned.hpp:19-22 | the mask test is divisibility by the power of two |
| `Align.AlignDownExactly` | include/boost/align/align_down.hpp:19-22 | the greatest multiple not above the value, at every width |
| `Align.AlignUpExactly` | include/boost/align/align_up.hpp:19-22 | the least multiple not below the value if and only if the sum does not overflow, else zero |
| `Align.AlignUpCanWrap` | include/boost/align/align_up.hpp:19-22 | at every width, rounding the largest value up to an even one gives zero |
| `Align.AlignmentAgrees` | include/boost/align/align_up.hpp:19-22 | the three functions agree on what is aligned and produce aligned values |
| `HiddenPointers.LoadStore` | include/boost/align/aligned_allocator_adaptor.hpp:103-115 | a stored word is read back from its bytes |
| `HiddenPointers.BlockLayout` | include/boost/align/aligned_allocator_adaptor.hpp:103-115 | alignment in the extra room always succeeds at the least aligned address; block and hidden word are disjoint and inside the allocation |
| `HiddenPointers.TotalIsTight` | include/boost/asio/any_completion_handler.hpp:143-147 | no byte is allocated in vain: with the worst base, block and hidden word end where the allocation does |
| `HiddenPointers.AllocateKeeps` | include/boost/asio/any_completion_handler.hpp:132-157 | allocating disturbs no hidden word of another live block |
| `HiddenPointers.WriteKeeps` | include/boost/align/aligned_allocator_adaptor.hpp:139-148 | no write inside a live block reaches a hidden word |
| `HiddenPointers.DeallocateRecoversBase` | include/boost/asio/any_completion_handler.hpp:159-177 | over every run, deallocation passes on exactly the pointer the underlying allocator returned, for both schemes |
| `HiddenPointers.Allocator.AllocateAt` | include/boost/align/aligned_allocator_adaptor.hpp:103-115 | the block is aligned, and memory changes as specified |
| `HiddenPointers.Allocator.Deallocate` | include/boost/align/aligned_allocator_adaptor.hpp:139-148 | the pointer passed on is the base of the block, for any live blocks whose hidden words the memory holds, and the byte count is the one that was allocated |
| `CompletionHandlers.StepLinear` | include/boost/asio/any_completion_handler.hpp:672-757 | every operation keeps ownership linear |
| `CompletionHandlers.LinearOwnership` | include/boost/asio/any_completion_handler.hpp:672-757 | over every sequence of operations no two wrappers own one object, each object is owned or destroyed, is destroyed and called at most once, and is called right after its storage was freed |
| `CompletionHandlers.HappensExactly` | include/boost/asio/any_completion_handler.hpp:180-192 | what each operation frees and runs: a call frees its object and then runs it, a reset, a destruction and an assignment free the old object, and nothing else happens |
| `CompletionHandlers.PassesExactly` | include/boost/asio/any_completion_handler.hpp:672-757 | after each operation an object is owned by its new owner exactly if its wrapper did not let go of it, and the wrappers are those there should be |
| `CompletionHandlers.RunsExactlyWhenCalled` | include/boost/asio/any_completion_handler.hpp:746-757 | over every sequence a handler has run if and only if a wrapper was called while it owned it |
| `CompletionHandlers.NoLeaks` | include/boost/asio/any_completion_handler.hpp:699-704 | when all wrappers are gone, all objects are |
| `CompletionHandlers.AnyCompletionHandler.MoveFrom` | include/boost/asio/any_completion_handler.hpp:672-678 | the pointers move and the other wrapper is empty |
| `CompletionHandlers.AnyCompletionHandler.Swap` | include/boost/asio/any_completion_handler.hpp:719-723 | both pointers are exchanged, also with itself |
| `CompletionHandlers.AnyCompletionHandler.Assign` | include/boost/asio/any_completion_handler.hpp:684-690 | the target takes over, the old object goes with the temporary, and self-assignment changes nothing |
| `CompletionHandlers.AnyCompletionHandler.Call` | include/boost/asio/any_completion_handler.hpp:746-757 | the wrapper lets go of its object, and keeps its table |
| `CompletionHandlers.Program.Perform` | include/boost/asio/any_completion_handler.hpp:672-757 | any possible operation on these objects does the specified step: it frees and runs what it should, ownership passes as it should, and stays linear |
| `CompletionHandlers.Program.PerformCall` | include/boost/asio/any_completion_handler.hpp:180-192 | a call on an object's wrapper extends what has happened by freeing and then running it |

## Left out

- Threads: handlers are atomic steps. The client socket is not on the session's strand, so in the program two handlers can overlap.
- The HTTP version check and the printing of the peer's port in the header handlers: their outcome is chosen by the environment with each event.
- Sockets, DNS, the clock and the console: they appear only as the events the environment chooses; that a cancelled operation completes with an error is allowed by them, not forced.
- A `remote_endpoint()` that throws inside `handle_wait`: the timer is assumed to close the session when it expires.
- Error values are compared by the program without their category; here they are distinct.
- The fixed deadline of the timer: waits are events, so how long they take is not modelled.
- The scratch room Asio adds to a string while a read is pending (512 to 65536 bytes): a single arrival may be of any size, and strings hold only what has arrived.
- Trailers and extensions of the last chunk: a body that ends otherwise than in `0 CRLF CRLF` is outside the grammar in `Chunked`.
- Sign extension of non-ASCII characters in `tolower`: the case mapping is that of the "C" locale.
- Pointer overflow in the comparison of `consume`: offsets are unbounded integers there.
- `std::string` and `std::vector` maximum sizes, and allocation failure.
- Putback contents after a refill, the destructor's flush, connecting and closing in `basic_socket_streambuf`.
- The contents of blocks before they are written, and the alignment of the hidden word itself.
- A handler function that throws, and the executor, allocator and cancellation slot lookups of `any_completion_handler`.
- The acceptor, the executors, and the other I/O objects of the vendored library: plumbing around the parts modelled here.
