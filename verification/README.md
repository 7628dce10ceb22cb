# libioxd: a model in Dafny and what is proved of it

libioxd is an HTTP/1.1 server with a thread per core on io_uring. This project models the parts of it
that move bytes and keep count, and proves that they do what they are for. `dafny verify dfyconfig.toml`
checks all of it.

The files follow the layers of the server, from the bottom up.

* **Rings**: `Rings`, `Spsc` (the receive queue), `BufRing` (the provided buffers), `Uring` (submissions
  and completions, and the loop's batches). Counters wrap at their width; what each ring holds is a
  sequence, and the kernel is a script that may refuse, consume some, and complete anything meanwhile.
* **Connections and workers**: `ConnInput` and `ConnOutput` (one connection's bytes in and out),
  `Worker` (all connections of a worker: receives, cancels, pauses, starvation, closing, shutdown, with the
  handler running inside the completion that wakes it, one small step at a time).
* **The pipe**: `ReaderState` (the reader's states as values, and what every step keeps), `PipeReader` (the
  reader itself, a class with the source's fields over an array), `PipeSession` (its whole life),
  `PipeWriter`.
* **HTTP**: `Chunked` (a reference decoder, against a grammar), `BodyStage`, `BodyReader`, `BodySession`
  (the request's body), `RequestHead` and `Folding` (what body a request has), `ReplyHead`,
  `ReplyHeaders`, `ReplyFraming`, `Response`, `Reply` (the reply), `Exchange` (a request and its reply),
  `Connection` (one after the other), `Router`.
* **Algorithms and stores**: `JsonText` and `JsonWriter`, `Bits` and `Find`, `StaticCache`, `Certs`.

Methods stand for the source's functions and are proved against sequences and functions: the stream a
reader stands for, the body a reference decoder finds, the tree a text reads back as. What no call may
change is a predicate of the class, `Valid` or `Settled`, and the statements about whole lives are methods
that take any list of calls or events: `Live`, `Play`, `Chunks`, `Serve`, `ServeAll`, `Run`.

## Findings

Where the code does not do what its documentation or its design promises, the model does what the code
does, and the exact condition is proved.

1. **A gap in the input after a full queue** (lib/io/conn.c:216-228). A buffer that arrives while the 64
   places of the receive queue are taken is returned and the input ended with -ENOBUFS, and the receive
   cancelled; a completion that still comes is queued again if the handler took something in between. The
   handler then reads bytes from behind a hole before it learns of the error. `ConnInput.FullThenRead`
   is such a life. `ConnInput.Conn.OnData`: there is a gap exactly when a buffer was queued behind a dropped
   one; `ConnInput.Conn.Stream`, `ConnInput.Play`: everything that arrived was delivered exactly when
   nothing was dropped.
2. **Five bytes behind the head of a reply to HEAD** (lib/http/engine.c:539-545). `finish` writes the last
   chunk without asking whether the reply has a body. A handler that flushes once on a HEAD request over 1.1
   without a declared length is answered by a head and `0\r\n\r\n`, which the client takes for the
   start of the next reply: `Replying.FlushedHead`. `Replying.Replier.Finish`: it happens exactly when the
   reply carries no body, its head is out and names chunks, the slab is empty and no filter is installed
   (`StrayEnd`).
3. **A file over the budget that is not sent is never freed** (lib/http/static.c:404-406, 617-629). `load`
   marks it dropped and only the release behind a send frees it, so one loaded for a HEAD or a 304 stays in
   memory. `StaticCaching.Cache.Read` and `StaticCaching.Cache.FreedWhenUnused`: an entry that is neither in
   the table nor being sent is unfreed exactly when it was over the budget and its first reply carried no
   body; `StaticCaching.Cache.Run` keeps it so, `StaticCaching.Cache.Close` does not free it either, and
   `StaticCaching.NeverSent` is such a life.
4. **The length of a send in an int** (lib/io/conn.c:437-459). `ConnOutput.Sender.Send`: data sent whole is
   answered by its length read as an int, `ToInt`, which is the length exactly up to 2^31 - 1. Beyond, the
   answer is another number, and an error exactly when the length modulo 2^32 is 2^31 or more, whereupon
   the writer counts as failed although everything went (`PipeWriting.PipeWriter.Through`).
   `ConnOutput.TwoGiB` is such a send, of 2 GiB in two operations.

## Model

| member | source | states |
|---|---|---|
| PipeReading.PipeReader.Fifo | lib/io/pipe.c:15-314 | the reader is a plain queue of bytes: what entered it is what was consumed and then the live span; without an error what entered from the connection, and what is still queued, is everything delivered |
| PipeSession.Live | lib/io/pipe.c:112-314 | any calls in any order over any arrival of input: the bytes dropped, kept and copied, as loaded from where the reader says they are, and the ones left are one stream, the connection's bytes with the accepted injections at their place; every span shown on the way is that stream's; every buffer is back on the ring after close |
| PipeSession.Perform | lib/io/pipe.c:112-314 | after every call each run frozen since the last release, while nothing was pinned, reads the same at the address it was handed out at |
| PipeReading.PipeReader.Read | lib/io/pipe.c:112-126 | 1 exactly with a live byte that was not examined, the span being the live bytes; an error stays; 0 only at the end of input; FULL only when the next buffer, as large as they come, does not fit |
| PipeReading.PipeReader.Avail | lib/io/pipe.c:276-291 | the same without waiting: no event of the connection is used up; 0 only when nothing delivered is unexamined |
| PipeReading.PipeReader.Keep | lib/io/pipe.c:156-198 | the kept bytes leave the live span, join the run's bytes and are at the address handed out; too many, none and no room change nothing, and no room is exactly a run in the gathering buffer that cannot take them |
| PipeReading.PipeReader.Run | lib/io/pipe.c:221-225 | the run is, byte for byte, everything kept since the last run_begin or release, wherever slides, copies and gathering took it |
| PipeReading.PipeReader.RunBegin | lib/io/pipe.c:200-219 | the run becomes a frozen piece at its address, or at the one it is moved to when another buffer is pinned, and a new run starts |
| PipeReading.PipeReader.FrozenReads | lib/io/pipe.c:200-247 | a frozen piece still reads the same at the address it was handed out at, after anything but release |
| PipeReading.PipeReader.Release | lib/io/pipe.c:227-247 | kept and frozen bytes are forgotten, the pin goes, the live bytes stay |
| PipeReading.PipeReader.Copy | lib/io/pipe.c:258-274 | the bytes copied are the next ones of the stream, at most as many as asked for, at least one unless the input or the connection ended, and nothing outside the destination changes |
| PipeReading.PipeReader.Drop | lib/io/pipe.c:133-154 | exactly that many live bytes, or all of them, are consumed, and as many are taken off those examined |
| PipeReading.PipeReader.Inject | lib/io/pipe.c:293-314 | accepted exactly when there is no error and the bytes fit behind the floor, the run and the live bytes; then they follow the live bytes |
| PipeReading.PipeReader.Gather | lib/io/pipe.c:44-71 | run and live bytes move to the gathering buffer unchanged exactly when both fit above its floor, and which buffers return to the ring |
| PipeReading.PipeReader.More | lib/io/pipe.c:80-110 | one more buffer joins the live bytes, or the reader ends or fails for the reason the source gives |
| PipeReading.PipeReader.Close | lib/io/pipe.c:249-256 | every buffer the reader holds is returned, once |
| ReaderState.KeptOk | lib/io/pipe.c:156-198 | keep in its four cases, on values: shape, live bytes, run and frozen pieces all as they should be |
| ReaderState.GatheredOk | lib/io/pipe.c:44-71 | gather on values: no frozen byte is touched |
| ReaderState.RunBegunOk | lib/io/pipe.c:200-219 | run_begin on values |
| ReaderState.ReleasedOk | lib/io/pipe.c:227-247 | release on values |
| ConnInput.Conn.OnData | lib/io/conn.c:156-244 | a completion with bytes: queued with its bytes, or its buffer returned and the input ended; there is a gap afterwards exactly when there was one, or a buffer was queued behind a dropped one |
| ConnInput.Conn.Stream | lib/io/conn.c:156-244 | over a whole life everything that arrived was delivered exactly when nothing was dropped, and without a gap what was delivered is all that arrived up to some point |
| ConnInput.Play | lib/io/conn.c:156-313 | that for any events and any items taken, in any order |
| ConnInput.FullThenRead | lib/io/conn.c:216-228 | a concrete life in which a buffer is lost and a later one delivered |
| ConnInput.Conn.RecvItem | lib/io/conn.c:301-313 | the oldest queued buffer with its bytes, which becomes the reader's; or the first reason the input ended for, once the queue is empty |
| ConnInput.OnePlace | lib/io/bufring.c:56-65 | every buffer is counted once among the ring, the queue, the reader and the other connections |
| SpscRing.Spsc.Push | lib/io/spsc.h:51-54 | the queue behind the 32-bit counters gets the item at its end |
| SpscRing.Spsc.Pop | lib/io/spsc.h:56-59 | and gives up its oldest one, across the counters' wrap |
| ProvidedBuffers.BufRing.Return | lib/io/bufring.c:56-65 | a returned buffer goes behind those offered, never over one the kernel has yet to pick, for any values of the counters |
| ProvidedBuffers.BufRing.Publish | lib/io/bufring.c:67-73 | the kernel sees exactly what was staged, through the 16-bit tail |
| ProvidedBuffers.BufRing.Pick | lib/io/bufring.c:56-73 | the kernel takes the buffers in the order they were offered |
| Rings.SlotOfWrapped | lib/io/spsc.h:34-63 | a wrapped counter and an unwrapped one select the same slot of a ring of a power of two |
| Rings.ModIsRemainder | lib/io/uring.c:162 | what masking with a power of two less one gives is the remainder |
| Rings.DiffExact | lib/io/uring.c:156-211 | the difference of wrapped counters is exact while they are less than their width apart |
| ConnOutput.Sender.Send | lib/io/conn.c:437-459 | all of the data goes out exactly when the operations, however short, take it all before one of them fails; otherwise a prefix and an error; the answer is the length read as an int |
| ConnOutput.Sender.SendV | lib/io/conn.c:393-422 | the same for a vector of pieces, moved past what went each time; it succeeds exactly when it is empty, or they go and some piece is not empty |
| ConnOutput.EnoughGoes | lib/io/conn.c:393-459 | as many operations that take anything as there are bytes are always enough |
| ConnOutput.FailsBefore | lib/io/conn.c:393-459 | one that fails before the ones ahead of it could take everything is enough for not all to go |
| ConnOutput.TwoGiB | lib/io/conn.c:437-459 | a send of 2 GiB that goes out whole is answered by a negative number |
| ConnOutput.SkipDrops | lib/io/conn.c:404-420 | what is left of the vector is what was not sent |
| PipeWriting.PipeWriter.FlushWith | lib/io/pipe.c:331-351 | front, data, back and the extra bytes go out as one span, exactly when the writer has not failed and the sends take them all; or the writer fails for good |
| PipeWriting.PipeWriter.Front | lib/io/pipe.c:373-379 | bytes just before the pending span, exactly when the lead has room |
| PipeWriting.PipeWriter.Back | lib/io/pipe.c:381-388 | bytes just behind it, exactly when the slack has room |
| PipeWriting.PipeWriter.Write | lib/io/pipe.c:401-413 | sent and pending bytes together grow by the data, exactly when there is room or the sends that make it succeed; otherwise the writer fails for good |
| WorkerProtocol.Worker.Run | lib/io/proactor.c:302-395 | every step of the protocol keeps its invariant: any order of the kernel's completions, submissions, accepts, handler actions, sweeps and shutdown; and a connection that waits for a buffer behind k others has left the list at some step of any run whose sweeps take up k + 1 returned buffers |
| WorkerProtocol.Worker.OnRecv | lib/io/conn.c:156-244 | a receive's completion, whatever the handler it wakes does inside it, leaves the worker in step |
| WorkerProtocol.Worker.Lifetime | lib/io/conn.c:38-81 | references are the handler's, until it closed, and the receive's, until it is done; a done receive means end of input or a closed connection; live counts the records in use |
| WorkerProtocol.Worker.PoolIsClean | lib/io/conn.c:68-91 | a record that is not in use is on no list, in no queue and has no receive outstanding, staged, armed or completed |
| WorkerProtocol.Worker.NoLostWakeup | lib/io/conn.c:106-113 | a coroutine waiting for input has an empty queue, no end of input, and either one outstanding receive or exactly one place on the starved list; one waiting for a pause has the cancel that ends its receive on the way |
| WorkerProtocol.Worker.OnePlace | lib/io/bufring.c:56-73 | every provided buffer is in one place: once on the ring, in one completion, once in one queue, or held by one reader |
| WorkerProtocol.Worker.ServedInTurn | lib/io/proactor.c:192-204 | while a connection is on the starved list, fewer returned buffers were swept than its deadline says |
| WorkerProtocol.Worker.Step | lib/io/proactor.c:192-204 | no step moves the deadline of a connection that waits, and a sweep takes up all the buffers returned since the last |
| WorkerProtocol.Worker.Sweep | lib/io/proactor.c:192-204 | as many of the starved as buffers returned since the last sweep, oldest first, are armed again |
| WorkerProtocol.Worker.ClosedEnds | lib/io/conn.c:267-287 | a closed connection's armed receive is being cancelled |
| WorkerProtocol.Worker.constructor | lib/io/proactor.c:302-340 | the invariant holds to begin with, every buffer on the ring |
| UringRings.Uring.Run | lib/io/proactor.c:345-372 | any run with any kernel: what the kernel read is what was claimed, each submission once and in order; what was dispatched is what was posted, each once and in order; and what completed is posted or still held |
| UringRings.Uring.Batch | lib/io/proactor.c:363-369 | the completions ready at its start are dispatched once each in ring order although handlers publish the head on the way |
| UringRings.Uring.Stage | lib/io/proactor.c:32-50 | a submission is claimed and filled behind all others; the abort comes exactly when the ring was full and sixteen rounds of entering consumed nothing |
| UringRings.Uring.GetSqe | lib/io/uring.c:156-170 | none exactly when the ring holds as many unconsumed entries as it has; otherwise the slot behind the last, zeroed, no unconsumed entry touched |
| UringRings.Uring.ConsumeOne | lib/io/uring.c:156-189 | the kernel finds at its head, through the index array or without, the next submission claimed |
| UringRings.Uring.FlushAndEnter | lib/io/uring.c:172-189 | everything claimed is published, the count asked for is exact, a refusal consumes nothing |
| UringRings.Uring.Take | lib/io/proactor.c:363-367 | the completion behind those taken, although the head was published meanwhile |
| UringRings.Uring.PublishCq | lib/io/proactor.c:24-30 | the slots taken are the kernel's again, the rest is not |
| Chunked.DecodeComplete | lib/http/engine.c:691-774 | the wire form of any chunked body in the grammar the code takes decodes to its data and its length, whatever follows |
| Chunked.DecodeSound | lib/http/engine.c:691-774 | whatever decodes is the wire form of such a body |
| Chunked.Unambiguous | lib/http/engine.c:691-774 | two bodies that start one stream are the same bytes with the same data |
| BodyReading.BodyReader.Outcome | lib/http/engine.c:679-941 | however the input was cut and in whatever calls the body was read: a body that ended is the one the reference decoder finds, of exactly its bytes; one not ended is unfinished; a syntax error is one; a cut input left it unfinished |
| BodyReading.BodyReader.FixedOutcome | lib/http/engine.c:836-894 | a body of a declared length is the next that many bytes, done exactly when all were delivered |
| BodySession.Chunks | lib/http/engine.c:776-941 | any mix of the three ways to read, then the drain: the bytes handed to the handler start what the arrived bytes decode to, and the rest was drained |
| BodyReading.BodyReader.ReadUntil | lib/http/engine.c:868-894 | the bytes stored are the next of the body, as many as asked for unless it ends; an interim reply goes out exactly when it is due; it fails for want of room only with the reader full, and with the connection only when that failed |
| BodyReading.BodyReader.ReadNextChunk | lib/http/engine.c:896-924 | what is left of the chunk in hand, or the whole next one, 0 only after the last |
| BodyReading.BodyReader.BodyAll | lib/http/engine.c:776-834 | the whole body in one piece; nothing exactly when it failed or was partly read in another way |
| BodyReading.BodyReader.Drain | lib/http/engine.c:926-941 | afterwards the body is done, or failed, or the connection is to close |
| BodyReading.BodyReader.ChunkHeader | lib/http/engine.c:724-756 | a size line is consumed and gives the size of the grammar, or fails for a reason that says what is wrong with the bytes |
| BodyReading.BodyReader.ChunkTrailers | lib/http/engine.c:703-722 | the trailer section is consumed through its empty line |
| BodyReading.ReadSize | lib/http/engine.c:735-752 | a line is accepted exactly when it is a size line of the grammar, with its value in size_t |
| BodyReading.BodyReader.BodyBegin | lib/http/engine.c:666-677 | 100 Continue is sent once, before any head, exactly when the client waits for it |
| ReplyHead.BuildHead | lib/http/engine.c:276-326 | the head's lines in order, in the room there is; refused only when they come within a small margin of it |
| ReplyHead.HeadNamesFraming | lib/http/engine.c:276-326 | a recipient reads from the head the framing it was built with, and finds the body right behind it |
| ReplyHead.HexIsSizeLine | lib/http/engine.c:221-233 | what put_hex writes is a size line of the grammar with that value |
| ReplyHead.PutUint | lib/http/engine.c:208-219 | the decimal digits of the number |
| ReplyHead.DecimalReads | lib/http/engine.c:208-219 | and those digits read back as it |
| ReplyFraming.SendFrame | lib/http/engine.c:343-372 | one chunk with its size line and CRLF, or plain data, with the head before and the last chunk behind when asked for, on the wire as one piece |
| ReplyFraming.Received | lib/http/engine.c:402-514 | round trip: a recipient of head and frames finds the framing named, and in it exactly the body framed, to the last byte sent |
| Replying.Replier.Decide | lib/http/engine.c:421-447 | length, chunks or until close: a length when the whole body is there or one was declared, chunks over 1.1, until close before, none for HEAD and bodyless statuses |
| Replying.Replier.FlushWith | lib/http/engine.c:402-514 | pending bytes leave in the reply's framing behind its head, through the filter if there is one; wire, head, counters and what was written stay in step |
| Replying.Replier.Write | lib/http/engine.c:552-575 | on success the reply's bytes grow by exactly the data; otherwise the reply has failed for good |
| Replying.Replier.Reserve | lib/http/engine.c:644-653 | room for so many bytes, with nothing written lost |
| Replying.Replier.Encode | lib/http/engine.c:374-400 | on success the filter was fed every pending byte once and in order, and all its output is kept in order |
| Replying.Replier.CutTo | lib/http/engine.c:452-478 | a declared length is never exceeded |
| Replying.Replier.Finish | lib/http/engine.c:530-550 | a finished reply is complete: all that was written, or the filter's whole output, framed as the head says and ended; for a reply without a body only the head, and five bytes more exactly under StrayEnd |
| Replying.FlushedHead | lib/http/engine.c:539-545 | a HEAD request flushed once is answered, when sends succeed, by a head with a last chunk behind it |
| ReplyHeaders.AddHeader | lib/http/engine.c:276-326 | a line added is a single header line that does not change the framing |
| ReplyHeaders.LineIsQuiet | lib/http/engine.c:276-326 | no accepted name and value can be read as a framing line |
| Exchanges.Exchange.AfterDispatch | lib/http/engine.c:1067-1083 | 0 only after an exchange both sides agree on: the body consumed without error, the reply whole and begun where the last one ended, and neither side closing; and otherwise only if the body or the reply failed or one side closes |
| Exchanges.Exchange.Serve | lib/http/engine.c:1067-1115 | any handler and what follows: a kept connection has the request's body taken to its end, and a reply, of what the handler wrote or its filter made of it, that a recipient finds the end of; what was frozen before, the head among it, is frozen still |
| Connections.TakeHead | lib/http/engine.c:943-981 | the head is the part of the live bytes the parser found; it is consumed, and frozen at its address unless the reader failed |
| Connections.ServeOne | lib/http/engine.c:1085-1116 | one request: what it took from the stream is its head and its body, what was sent is one reply |
| Connections.ServeAll | lib/http/engine.c:1085-1116 | as long as it is kept, the stream is the requests' heads and bodies end to end, and the wire their replies end to end, however the input was cut and the sends came up short |
| RequestFraming.FillFraming | lib/http/engine.c:989-1036 | chunked exactly when all codings joined are one chunked with no length given and nothing refuses the request; a fixed length exactly when all lengths are the same digits with a value in size_t and there is no coding; keep-alive and expectation as the tokens say |
| RequestFraming.PickHeaders | lib/http/engine.c:156-199 | counts and flags are those of all lines of each name |
| RequestFraming.Picked.PickTransferEncoding | lib/http/engine.c:133-154 | the flags after one more transfer-encoding line, in terms of its tokens |
| RequestFraming.TeStep | lib/http/engine.c:133-154 | taken over all lines they say whether the joined codings are one chunked |
| RequestFraming.NextToken | lib/http/engine.c:86-97 | the next element of a list by the list syntax, empty ones skipped |
| RequestFraming.ParseLength | lib/http/engine.c:71-84 | accepted exactly when all digits and no more than size_t holds |
| Folding.LowerInPlace | lib/http/engine.c:119-131 | the name becomes what the words make of it, whole words first, and nothing else changes |
| Folding.FoldsWord | lib/http/engine.c:122-128 | why it asks for them: eight bytes are folded as bytes exactly when none of them is a stray, an at sign, or a Z, that bytes from 0xc1, or 0xdb, carry into |
| Folding.FoldsName | lib/http/engine.c:119-131 | the same for a whole name |
| Folding.FoldsAscii | lib/http/engine.c:119-131 | what lower_inplace documents: names of bytes below 0x80, and up to 0xbf, are folded as their bytes are |
| Folding.SameNames | lib/http/engine.c:166-199 | and whatever the bytes, a name equals one the engine looks for exactly when its bytes folded one by one do |
| Folding.Misfolded | lib/http/engine.c:122-128 | two byte strings outside of what it asks for that it folds otherwise |
| Searching.FindBytes | lib/http/find.c:124-133 | the least index where the needle is, or -1 exactly when it is nowhere, for every haystack and needle |
| Searching.FindSse2 | lib/http/find.c:46-73 | the same for the 16-wide search, short haystacks and the overlapping last block included, every load inside the haystack |
| Searching.FindAvx2 | lib/http/find.c:84-106 | the same for the 32-wide search |
| Searching.FindScalar | lib/http/find.c:6-14 | the same for the plain one |
| Searching.OneAnswer | lib/http/find.c:6-106 | so they all answer alike |
| JsonWriting.RoundTrip | lib/json/json.c:16-347 | the calls that walk a tree write text that an independent reader reads back as the tree, the same for every sink; memory takes it exactly when it is as large as the text, a slab when enough of its sends succeed |
| JsonText.ReadsBack | lib/json/json.c:90-347 | a value's text, whatever may follow, reads back as the value, strings byte for byte and numbers exactly |
| JsonWriting.WriteTree | lib/json/json.c:164-347 | the calls for a tree add exactly its text, unless it nests too deep or the sink cannot take it |
| JsonWriting.StartsAList | lib/json/json.c:164-301 | whatever levels are open, the text is the start of a list of JSON values between commas, and the whole list when none is |
| JsonWriting.AnyCalls | lib/json/json.c:164-347 | any list of calls: as long as the sink lasts they all succeed exactly when each may come where it does, and what is written is then the start of a list that an independent reader reads back |
| JsonWriting.JsonWriter.ValueLead | lib/json/json.c:164-181 | a comma exactly when one is due; refused exactly when no value may come |
| JsonWriting.JsonWriter.Open | lib/json/json.c:225-251 | a level is opened where a value may come, and the masks are the stack of levels |
| JsonWriting.JsonWriter.End | lib/json/json.c:263-279 | the level becomes a value of the one around it |
| JsonWriting.JsonWriter.Key | lib/json/json.c:286-301 | a member's key with its comma and colon, in an object without a key pending |
| JsonWriting.JsonWriter.Done | lib/json/json.c:281-284 | true exactly when all levels are closed and nothing failed; then the text is a list of values |
| JsonWriting.PutString | lib/json/json.c:141-162 | the quoted string, the same bytes in one piece or in many |
| JsonWriting.PutEscaped | lib/json/json.c:103-139 | the escaped bytes, in order |
| JsonWriting.Sink.Put | lib/json/json.c:71-88 | all the data in as many pieces as the room makes of it, unless it is more than the sink takes |
| JsonWriting.DigitsOf | lib/json/json.c:322-330 | the decimal digits |
| Routing.Router.Dispatch | lib/http/router.c:333-359 | a route is found exactly when one matches the path with that method, or GET for HEAD; it is the first with static parts before captures; its captures are the segments at its colons, as many as its names |
| Routing.Router.Answer | lib/http/router.c:473-499 | 405 exactly when routes match and none takes the method, the fallback exactly when none matches; the Allow methods are exactly those that would be answered |
| Routing.Build | lib/http/router.c:305-319 | the tree holds the accepted endpoints in order |
| Routing.KeptAre | lib/http/router.c:267-295 | a route is in the tree exactly when one of its pattern and method was registered with few enough captures |
| Routing.FullPath | lib/http/router.c:212-235 | its segments are those of the prefixes, outermost first, and of the path |
| Routing.NextSegment | lib/http/router.c:195-210 | the next non-empty segment |
| Routing.CandidatesMatch | lib/http/router.c:333-359 | every pattern the walk can try matches |
| Routing.MatchesAreCandidates | lib/http/router.c:333-359 | every pattern that matches is one it can try |
| Routing.CandidatesInOrder | lib/http/router.c:333-359 | and it tries them static before capture at every depth |
| Routing.AllowedEndpoints | lib/http/router.c:392-409 | one endpoint of each method seen, in registration order |
| Routing.Router.Insert | lib/http/router.c:267-295 | a route joins those kept, unless it has one of its kind before or too many captures |
| Routing.FlattenChain | lib/http/router.c:237-252 | the groups' middleware outermost first, then the route's own |
| Routing.Next.Run | lib/http/router.c:442-451 | each call runs the next in line, and nothing runs after the handler |
| StaticCaching.Cache.Run | lib/http/static.c:372-709 | any interleaving of requests, file reads and sends keeps the cache coherent |
| StaticCaching.Cache.Coherent | lib/http/static.c:215-321 | chains and recency list hold the same entries, each once and in the bucket its hash selects; the count and the bytes are theirs and within the budget; the list is in order of last use |
| StaticCaching.Cache.FreedWhenUnused | lib/http/static.c:274-286 | an entry is freed at most once, never in the table or while sent; out of both it is freed, unless it was over the budget and never sent; its references are the sends that read it |
| StaticCaching.Cache.Ask | lib/http/static.c:658-709 | what a request finds, what goes stale and leaves, what is used, what is loaded |
| StaticCaching.Cache.Read | lib/http/static.c:372-408 | a loaded file becomes the newest entry and the latest use after just as many of the oldest were dropped as it takes, or, over the budget, no entry of the table |
| StaticCaching.Cache.Sent | lib/http/static.c:282-286 | the end of a send frees its entry exactly when it left the table and no other send reads it |
| StaticCaching.Cache.Lookup | lib/http/static.c:215-221 | an entry of the name exactly when the table has one |
| StaticCaching.Cache.MakeRoom | lib/http/static.c:288-292 | the newest entries that fit beside the new one are kept, no fewer |
| StaticCaching.Cache.Grow | lib/http/static.c:294-309 | twice the buckets hold the same entries, each where its hash says |
| StaticCaching.Cache.Touch | lib/http/static.c:247-253 | the entry moves to the front, the others keep their order |
| StaticCaching.Cache.UnlinkEntry | lib/http/static.c:263-272 | the entry leaves both structures, the rest stays in order |
| StaticCaching.Cache.Close | lib/http/static.c:810-836 | every entry of the table is freed; with those before, all that were ever made but the ones over the budget and never sent |
| StaticCaching.NeverSent | lib/http/static.c:404-406 | a life in which a file over the budget is loaded for a HEAD and, whatever follows, never freed |
| CertTables.Store.Run | lib/tls/certs.c:289-327 | any interleaving of handshakes with reloads keeps the counts |
| CertTables.Store.TablesCounted | lib/tls/certs.c:289-327 | a table's count is the store's own reference, the handshakes' and the reload's; it is freed exactly when nobody has one, once; a table in memory has a fallback that is one of its hosts' |
| CertTables.Store.ContextsCounted | lib/tls/certs.c:156-254 | a context is referenced once for every host of the tables in memory, so by none exactly when no such table has it |
| CertTables.Store.ReloadLoads | lib/tls/certs.c:312-327 | the new table serves exactly when a host loaded or was carried over and a fallback is found; otherwise the old one goes on |
| CertTables.Store.Load | lib/tls/certs.c:174-254 | the hosts and the fallback of the table a directory makes, given the old one; what it does not keep is let go |
| CertTables.KeepsOldContext | lib/tls/certs.c:197-233 | a listed host that does not load keeps the context it had, if it had one, and one that loads has a new one |
| CertTables.Store.Close | lib/tls/certs.c:278-287 | without handshakes nothing is left: every table freed, every context released |

## Left out

- The kernel: it is a script or a list of events, any that its interface allows; sends are as short as they
  like, a terminal -ENOBUFS carries no buffer, a cancel by CANCEL_ANY may end any receive.
- WorkerProtocol.Worker: its buffer ring, receive queues, submissions and completions are sequences. That
  the arrays and counters of the code behave as such sequences is proved of BufRing, Spsc and Uring, not of
  Worker over them; and the bytes in the buffers are ConnInput's matter.
- WorkerProtocol.Worker.RecvItem: a handler that waits for input after it paused its own receive. In the
  source it would wait for ever, since only it could resume; in the model the call gives up.
- PipeReading.PipeReader: the provided buffers are rows of a field of its connection, and the other users of
  them are events of the connection's script, not other readers over the same rows.
- Coroutines as such: stacks, switching and pools. A handler is a program of operations that may suspend
  where the source does.
- Accepting: listeners, stalled accepts and their retry, the limit of file slots, the log of errors.
- Times: the grace period of a shutdown, timeouts, revalidation intervals (a stat's answer is a parameter).
- Connections.TakeHead: the parser of request heads is any function that does not find a head in what it
  called incomplete before.
- RequestFraming.FillFraming: the target, the query and its parameters; that they were cut short is an
  input.
- Replying.Replier.Encode: a filter is a script of what its calls take and give, which ends; that an
  actual coder ends is not proved.
- ReplyHead.BuildHead: reason phrases are a parameter, assumed to be lines; `send_status` cuts its text to
  128 bytes, which no phrase of the source reaches.
- Formatted output (`ioxd_printf`), except that it ends in writes.
- Routing.Router.Answer: the Allow text when it does not fit the arena (it is then not sent), and the
  decoding of percent signs in captures. Registering routes too late, or without memory, ends the process.
- JsonWriting.RoundTrip: doubles, floats and raw text; a reply and a pipe as sinks are one kind, a slab
  whose sends succeed or not.
- Searching.FindBytes: the vector instructions are comparisons byte by byte and the mask of their results.
- Folding.FoldsWord: and, or and not of a word are taken byte by byte, the additions are of whole words.
- StaticCaching.Cache.Ask: opening, ranges, dates, negotiation and the reply's head; masking a hash with the
  bucket count less one is the remainder. Failures of allocation other than that of the larger table.
- CertTables.Store.Load: reading and checking certificates, permissions, SNI matching. A load is one step
  between the steps of handshakes, since all it shares with them are counts that are changed atomically.
- OpenSSL, kernel TLS, brotli and zlib, the ClientHello, sockets, signals, CPU pinning, the client side
  (lib/clients), `ioxd__conn_recv_exact` and the small getters.
