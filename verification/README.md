# stdiofs: a verified model

stdiofs mounts a file system over a pair of pipes. On one side a FUSE client turns each
operation into a message (proxy functions, `rpc_invoke`), on the other a provider decodes
it, runs it on a backend and replies (`rpc_stub_service`, the stub handlers). This project
models that stack, layer by layer, and proves that a call through it is a direct call of
the backend.

| file | what it models |
|---|---|
| Words.dfy | big-endian byte loops and two's complement |
| Buffers.dfy | the growable buffer, also as a cursor, and the growable name list |
| Wire.dfy, WireLaws.dfy | the wire format as functions over arbitrary bytes, and its laws |
| Tables.dfy, Serializer.dfy, Deserializer.dfy | the encoders and decoders, imperative, proved to be the format |
| Framing.dfy | messages over a pipe that moves any number of bytes per call |
| Calls.dfy, Remote.dfy, Sizes.dfy | the 23 methods: both halves of every signature, that they meet, and how long their messages are |
| Documented.dfy | the messages as doc/protocol.md describes them, and that these are they |
| Transparency.dfy | a whole remote call against a direct one, and where the two differ |
| Capabilities.dfy | the negotiation of operations |
| Service.dfy | the client under its lock, the stub, the service loop and its runs |
| Protocol.dfy, Concurrent.dfy | any number of threads against one provider, as a state machine |
| Refinement.dfy | that the imperative loops, turns and invocations are runs of that state machine |
| PythonCodec.dfy | the Python provider's message classes, the second implementation |

The main results are `RemoteCallIsTransparent`, `ConcurrentCallsAreDirect`, `RunsLinearise`,
`RunConserves`, `TableRoundTrip`, `RequestIsDocumented`, `FramesSurviveChunking`,
`NegotiationIsExact` and `OneFormat`. They name the backend's own operation, literal sizes,
ids and statuses, and single bytes rather than the model's helper functions where they can.

Modelling choices a reader should know:

- A file descriptor is a FIFO of bytes with a script of what its next calls do: move up to
  some number of bytes (a write may move none), ask for a retry (EAGAIN, EWOULDBLOCK, EINTR),
  or fail. A script is finite; after it, calls move all they can. The stream of an input
  holds everything that will ever arrive, so reading it empty is end of file.
- An argument row points to a slot of a memory (a sequence of C objects). Decoded strings
  and lent bytes are pointers into the message; the stub's call reads them there before its
  reply overwrites the message.
- What uninitialised locals and the tail of a buffer hold is a parameter (`junk`, `stale`),
  and every result holds for all of it.
- The backend is a function from a state and a call to a state and an answer. Its contract
  (`AnswerOk`) is what the stub needs: results in the range of their C type, at least as many
  bytes read as it reports, and a terminated link target.
- A size_t travels as its lower 32 bits, so the call that reaches the backend is
  `Arriving(call)`: the caller's own call unless a `read` or `readlink` asks for 4 GiB or more.
- The stub's handlers keep both directions in one table, mostly; here the two halves of
  each stub table are two lists, since only one half is walked at a time. The proxies'
  tables are whole.
- The code and doc/protocol.md differ in one row: the document gives the flags of `open` as
  an int, and the proxy sends them as a mode (src/stdiofs/fs/proxy.c:438). The model follows
  the code; the bytes are the same.
- `fs_proxy_listoperations` returns the status of the exchange and not the decoded result
  (src/stdiofs/fs/proxy.c:45-46); all other proxies return -1 for a failed exchange.

Five promises one might expect do not hold as such. Each is stated with its exact condition
and with an input for which it fails: the out object of a remote call (`OutObjectIsFaithful`,
`FailedOpenReplacesHandle`), a stat with wide times (`StatIsLossless`, `NegativeTimeIsLost`),
a listing whose callback is full (`ListingIsFaithful`, `FullListingRunsOn`), a string field
without a terminator (`StringStaysInField`, `UnterminatedFieldRunsOn`), and messages of
16 MiB or more (`RemoteCallWorksWithinLimit`, `LargeWriteFails`).

`dafny verify dfyconfig.toml` checks the project.

## Model

| member | source | states |
|---|---|---|
| Words.LoadStore | src/stdiofs/rpc/type/size.c:38-60 | decoding the big-endian bytes of any integer, at any width, gives the integer modulo the width |
| Words.StoreLoad | src/stdiofs/rpc/type/size.c:10-26 | encoding what was decoded gives the same bytes back, at any width |
| Words.StoreIsModular | src/stdiofs/rpc/type/int.c:8-25 | values equal modulo the width have the same bytes, so the signed and the unsigned encoder agree on every bit pattern |
| Words.Int32RoundTrip | src/stdiofs/rpc/type/int.c:8-60 | for every int the arithmetic-shift encoder and the unsigned-accumulating decoder are inverse, and the bytes are those of the u32 codec |
| Words.Int32LoadIsInverse | src/stdiofs/rpc/type/int.c:38-60 | every four bytes are the encoding of exactly one int |
| Words.Int64RoundTrip | src/stdiofs/rpc/type/offset.c:10-35 | every signed 64-bit offset, also -1, survives the u64 codec |
| Words.StoreWord | src/stdiofs/rpc/type/u64.c:10-25 | the shift loop that fills a char array from its end computes the two's complement big-endian bytes |
| Words.LoadWord | src/stdiofs/rpc/type/u64.c:37-59 | the shift-and-or loop computes the big-endian number, losing no byte in an accumulator at least as wide |
| Buffers.Grown | src/stdiofs/rpc/buffer.c:14-30 | the doubling loop stops with room for what is needed, unchanged when there was room, and below twice the need when it grew |
| Buffers.AmortisedGrowth | src/stdiofs/rpc/buffer.c:14-30 | over any run of reservations all moved bytes together stay below the growth of the capacity, which stays below twice the largest need |
| Buffers.Buffer.constructor | src/stdiofs/rpc/buffer.c:33-43 | an empty buffer of at least the minimum capacity |
| Buffers.Buffer.View | src/stdiofs/rpc/deserializer.c:36-40 | the same struct as a cursor: size is the position, capacity the limit |
| Buffers.Buffer.Reserve | src/stdiofs/rpc/buffer.c:14-30 | grows to the doubled capacity, keeps every byte and the size, and charges the move |
| Buffers.Buffer.Write | src/stdiofs/rpc/buffer.c:67-77 | appends the bytes to the contents, whatever regrowth it takes |
| Buffers.Buffer.WriteAt | src/stdiofs/rpc/buffer.c:79-90 | overwrites the bytes at an offset, keeps the size and every other byte |
| Buffers.Buffer.Skip | src/stdiofs/rpc/buffer.c:92-100 | moves the size on and keeps the contents below it |
| Buffers.Buffer.Read | src/stdiofs/rpc/buffer.c:102-117 | advances the cursor over the bytes or fails and leaves it, exactly by whether they fit |
| Buffers.NameList.Add | src/stdiofs/rpc/type/stringlist.c:32-49 | appends a name under the same growth law and always reports that there is room |
| Serializer.SerializeBytes | src/stdiofs/rpc/type/bytes.c:10-24 | appends the u32 length of the bytes and then the bytes the size argument selects |
| Serializer.SerializeString | src/stdiofs/rpc/type/string.c:25-34 | appends length including the terminator, characters and terminator |
| Serializer.SerializeStat | src/stdiofs/rpc/type/stat.c:15-38 | the sequential appends write the fourteen mixed-width fields in order |
| Serializer.SerializeStatVfs | src/stdiofs/rpc/type/statvfs.c:15-30 | the sequential appends write the eight 64-bit fields in order |
| Serializer.SerializeStringList | src/stdiofs/rpc/type/stringlist.c:51-65 | appends the count and each entry in order |
| Serializer.SerializeRow | src/stdiofs/rpc/types.c:30-64 | dispatches on the type id: a known row appends its encoding, an unknown one appends nothing and fails |
| Serializer.Serialize | src/stdiofs/rpc/serializer.c:11-55 | whatever the buffer held and however it regrew, it becomes exactly size, id and the encodings of the rows of that direction up to the end marker; the size counts what was written even when an unknown type stops the loop |
| Deserializer.DeserializeString | src/stdiofs/rpc/type/string.c:36-85 | takes one length-prefixed field, then hands out a pointer into the message, or leaves in the caller's buffer the text, or what of it fits, with its terminator and every byte behind that as it was; or fails and stores nothing |
| Deserializer.DeserializeBytes | src/stdiofs/rpc/type/bytes.c:27-65 | takes one field, then lends pointer and length for the sentinel size, or makes byte i of the caller's buffer byte i of the field up to the smaller of length and size, and leaves the other bytes |
| Deserializer.DeserializeStat | src/stdiofs/rpc/type/stat.c:40-140 | the status-guarded reads either fill the struct with the fourteen fields or leave it alone |
| Deserializer.DeserializeStatVfs | src/stdiofs/rpc/type/statvfs.c:32-58 | the looped reads either fill the struct with the eight fields or leave it alone |
| Deserializer.DeserializeStringList | src/stdiofs/rpc/type/stringlist.c:67-87 | hands every decoded entry to the callback, in order, up to the first that does not fit, ignoring what the callback returns |
| Deserializer.DeserializeRow | src/stdiofs/rpc/types.c:66-99 | dispatches on the type id: a known row is parsed and stored, an unknown one fails |
| Deserializer.Deserialize | src/stdiofs/rpc/deserializer.c:28-53 | the cursor loop has exactly the status and the effect on the caller's objects that parsing the rows of that direction has, and leaves the message alone |
| Deserializer.GetMethodId | src/stdiofs/rpc/deserializer.c:9-25 | the signed id at offset four, or 0 when the message is too short |
| Tables.MatchingSplits | src/stdiofs/rpc/serializer.c:42-50 | the loops look at nothing from the end marker on, and before it at each row of the direction once and in order, whatever rows stand between them |
| WireLaws.CopiedAt | src/stdiofs/rpc/type/bytes.c:43-51 | the copy of a field, byte for byte |
| WireLaws.PrintedAt | src/stdiofs/rpc/type/string.c:77-79 | the printed copy, byte for byte: the C string read back is the text or the part that fits |
| WireLaws.TableRoundTrip | src/stdiofs/rpc/deserializer.c:28-53 | what one table serialises any wire-compatible table deserialises, whatever bytes follow: the id comes back, every row holds its counterpart's value, the cursor ends at the message's end, no other slot changes |
| WireLaws.TruncatedTableFails | src/stdiofs/rpc/deserializer.c:36-50 | with any suffix of the payload missing, decoding a non-empty argument list fails |
| WireLaws.TruncationFails | src/stdiofs/rpc/buffer.c:102-117 | the same for any list of encoded items at any position |
| WireLaws.DecodingIsBounded | src/stdiofs/rpc/deserializer.c:28-53 | on arbitrary bytes the cursor never moves back or passes the limit, and list callbacks run at most once per four remaining bytes |
| WireLaws.NamesBounded | src/stdiofs/rpc/type/stringlist.c:67-87 | whatever count is declared, entries and callbacks are bounded by a quarter of the remaining bytes |
| WireLaws.NamesFailExactly | src/stdiofs/rpc/type/stringlist.c:67-87 | on failure exactly the entries before the failing one were delivered |
| WireLaws.FailedDecodeKeepsObject | src/stdiofs/rpc/type/stat.c:40-140 | a decoder that fails leaves the caller's object untouched, except for names already delivered to a list |
| WireLaws.StringStaysInField | src/stdiofs/rpc/type/string.c:36-58 | reading a decoded string stays inside its field if and only if the field holds a NUL, which the decoder does not check |
| WireLaws.UnterminatedFieldRunsOn | src/stdiofs/rpc/type/string.c:36-58 | a concrete field of one byte whose string is read as two |
| WireLaws.StatCodec | src/stdiofs/rpc/type/stat.c:15-140 | decode of encode is a projection: dropped fields are zero, times keep 32 bits; it is idempotent and does not change the bytes |
| WireLaws.StatIsLossless | src/stdiofs/rpc/type/stat.c:15-140 | the projection loses nothing if and only if device and block size are zero and the times fit 32 bits |
| WireLaws.NegativeTimeIsLost | src/stdiofs/rpc/type/stat.c:15-140 | a concrete stat: one second before 1970 arrives as a second in 2106 |
| WireLaws.VfsCodec | src/stdiofs/rpc/type/statvfs.c:15-58 | the same for statvfs |
| Framing.ReadExact | src/stdiofs/rpc/connection.c:11-46 | over any pattern of short reads and retries the loop takes exactly what its specification takes and puts it in place, byte for byte, and terminates |
| Framing.Connection.Write | src/stdiofs/rpc/connection.c:73-106 | the loop sends exactly what its specification sends, leaves the buffer alone, and reports a failure once if someone listens |
| Framing.Connection.Read | src/stdiofs/rpc/connection.c:109-149 | receives one message whole, exactly the declared number of bytes and fewer than 16 MiB, or fails with an empty buffer and the specified amount taken, and reports a failure once; a declared size below four makes it ask for the wrapped-around rest, which is sound as long as what is there fits the buffer |
| Framing.WriteAllLaws | src/stdiofs/rpc/connection.c:73-106 | the loop sends a prefix; it succeeds exactly when it sent everything; only a failing call stops it, with -4 |
| Framing.ReadAllLaws | src/stdiofs/rpc/connection.c:11-46 | the loop succeeds exactly when it took all it needs; with too little it takes that and returns -5, and a failing call stops it with -3 |
| Framing.FrameArrives | src/stdiofs/rpc/connection.c:109-149 | a message at the head of the stream arrives whole and alone, or a read error is reported |
| Framing.SizeLimitIsExact | src/stdiofs/rpc/connection.c:128-143 | over an unbroken pipe a message is accepted if and only if it is smaller than 16 MiB; a larger one costs four bytes |
| Framing.FramesSurviveChunking | src/stdiofs/rpc/connection.c:73-149 | any sequence of messages, written under one pattern of chunks, zero-length writes and retries and read under another, arrives byte for byte and leaves the stream at a message boundary |
| Calls.Arriving | src/stdiofs/rpc/type/size.c:27-34 | the method of a call never changes on the way, and the call itself does not exactly when its size fits 32 bits |
| Calls.TablesAgree | src/stdiofs/fs/proxy.c:31-611 | for all 23 methods the proxy's table and the stub's are compatible on the wire in both directions, though those of `open` name different types |
| Calls.HalvesOf | src/stdiofs/rpc/serializer.c:42-50 | filtering a full table by direction yields its request half and its reply half |
| Documented.RequestIsDocumented | doc/protocol.md:11-439 | for all 23 methods the proxy's request is the documented message, byte for byte: size, number of the method, and its fields in their documented order and width |
| Documented.ReplyIsDocumented | doc/protocol.md:11-439 | for all 23 methods the stub's reply is the documented message, byte for byte, with every field also when the operation failed |
| Remote.RequestArrives | src/stdiofs/fs/stub_operations.c:86-759 | for all 23 methods the stub decodes the proxy's request into the very call, sizes cut to 32 bits, including every flags value of `open` and `rename`, with pointers that read the request's own bytes |
| Remote.ReplyArrives | src/stdiofs/fs/proxy.c:31-611 | for all 23 methods the proxy decodes the stub's reply into the backend's result and what it wrote, through the codec and the caller's buffer sizes; for `read` and `readlink` byte for byte |
| Remote.DirectCallWrites | src/stdiofs/fs/operations.h:30-200 | what a direct call leaves in the caller's out object, spelled out for everything a backend can write |
| Remote.RequestIsHandled | src/stdiofs/fs/stub.c:11-24 | the stub answers a request with the backend's answer to that call, made once, or with its own list |
| Remote.ReplyHoldsNoPointers | src/stdiofs/fs/stub_operations.c:566-607 | no object a stub replies with points into the message buffer, so the reply never reads from the request it overwrites |
| Sizes.RequestHasSize | src/stdiofs/fs/proxy.c:31-611 | the length of every method's request, from the lengths of its strings and bytes |
| Sizes.ReplyHasSize | src/stdiofs/fs/stub_operations.c:44-759 | the length of every method's reply, from what the backend wrote |
| Remote.CallHasItsMethod | src/stdiofs/fs/stub_operations.c:762-817 | whatever was decoded, the handler of an id calls that id's operation |
| Transparency.RemoteCallIsTransparent | src/stdiofs/rpc/rpc.c:43-84 | for every method, backend, state, arguments and chunking pattern: with both messages below 16 MiB a remote call leaves the backend where the backend's own operation with the same arguments (sizes cut to 32 bits) does, returns its result, and leaves a robust out object as the direct call does; any other out object is what the codec makes of it; the capability query leaves the backend alone and returns 0 and the stub's names |
| Transparency.RemoteReadCopies | src/stdiofs/fs/proxy.c:452-480 | a remote `read`, byte for byte: what the backend reports is in the caller's buffer, and the rest of it is as it was |
| Transparency.RemoteReadLinkPrints | src/stdiofs/fs/proxy.c:99-122 | a remote `readlink`: the C string in the caller's buffer is the link's target, and what is behind it is as it was |
| Transparency.RemoteCallWorksWithinLimit | src/stdiofs/rpc/connection.c:128-143 | a remote call succeeds if and only if the computed sizes of both messages are below 16 MiB; otherwise the status, whether the backend acted, the return value -1 and the untouched out object are exact |
| Transparency.LargeWriteFails | src/stdiofs/fs/proxy.c:482-509 | a `write` succeeds if and only if its path and bytes together leave 33 bytes of the 16 MiB; one of 16 MiB fails and never reaches the backend |
| Transparency.LargeReadFails | src/stdiofs/fs/proxy.c:452-480 | a `read` succeeds if and only if the bytes it reports leave 16 bytes of the 16 MiB |
| Transparency.OutObjectIsFaithful | src/stdiofs/fs/stub_operations.c:86-607 | the caller's out object is the direct call's, whatever the stub's locals hold, if and only if it is robust: the backend wrote it in a form that fits the wire, or it has no room for anything else, or a `read` wrote nothing new behind the bytes it reports |
| Transparency.FailedOpenReplacesHandle | src/stdiofs/fs/stub_operations.c:536-564 | the case in point: a failed `open` that stores no handle keeps the caller's handle directly and replaces it remotely |
| Transparency.ListingIsFaithful | src/stdiofs/fs/stub_operations.c:182-216 | the out object of a remote `readdir` is the direct call's if and only if the callback refuses none but possibly the last name |
| Transparency.RemoteListingIsFaithful | src/stdiofs/fs/proxy.c:125-152 | the same of the whole remote call, over any pipe |
| Transparency.FullListingRunsOn | src/stdiofs/rpc/type/stringlist.c:75-85 | a concrete listing: a callback that refuses the first of two names still gets the second |
| Transparency.ProxyResultsDoNotEscape | src/stdiofs/fs/proxy.c:99-122 | whatever bytes a reply holds, nothing a proxy hands out points into the shared buffer |
| Transparency.LargestSizeBorrows | src/stdiofs/rpc/type/bytes.c:39-55 | the one exception: a `read` of the largest size gets a pointer from every reply that decodes |
| Service.Rpc.Invoke | src/stdiofs/rpc/rpc.c:43-84 | the status sequence serialise, write, read, id check, decode, with its exact effect on both pipes and the caller's objects; the lock is free again on every return |
| Service.FsProxy.Perform | src/stdiofs/fs/proxy.c:49-72 | a proxy function is one invocation of its table; it returns the decoded result, or -1 for every other status, and the capability query returns the status |
| Service.RejectedReplyKeepsAlignment | src/stdiofs/rpc/rpc.c:66-83 | an invocation takes exactly one whole message if and only if it got to look at the reply, also when it rejects it for its id or its contents; over unbroken pipes that is so if and only if the reply is below 16 MiB, and of a larger one the next invocation finds everything but the header |
| Service.OnlyOwnReplyAccepted | src/stdiofs/rpc/rpc.c:73-80 | a reply is rejected with -2, before it is decoded, if and only if the four bytes behind its size are not the called method's id |
| Service.Stub.OnMethodCall | src/stdiofs/fs/stub.c:11-24 | dispatch by decoded id, decode, call, and reply over the request's buffer, or a failure without call or reply |
| Service.Stub.Answering | src/stdiofs/fs/stub_operations.c:86-759 | the backend's own operation is called once with the decoded arguments, and its own answer is what is encoded; the capability query is answered with the list |
| Service.Stub.Serve | src/stdiofs/rpc/stub.c:39-58 | one read-callback-write step, with its exact effect on pipes and backend |
| Service.Stub.Loop | src/stdiofs/app/provider.c:169-172 | the service loop terminates and is a run whose last turn failed with the returned status |
| Service.HandledOrRefused | src/stdiofs/fs/stub_operations.c:21-30 | a request is refused, without call, reply or change of state, if and only if its id is not 1 to 23 or it does not decode; otherwise the decoded call is made and the reply is the backend's own answer to it |
| Service.ShortMessageRefused | src/stdiofs/rpc/deserializer.c:9-25 | a message too short to hold an id reads as id 0 and is refused |
| Service.RunConserves | src/stdiofs/rpc/stub.c:39-58 | in every run requests taken, calls made and replies written agree one to one and in order, and the backend is where those calls leave it |
| Service.RunEnds | src/stdiofs/rpc/stub.c:43-57 | the failing turn either dispatched its request and could not send all of the reply, or made no call and wrote nothing |
| Service.RemoteCallIsBothEnds | src/stdiofs/rpc/rpc.c:49-83 | the remote call of the transparency results is what the client's invocation and one turn of the service loop do together |
| Protocol.RunsLinearise | src/stdiofs/rpc/rpc.c:49-83 | for any number of threads, interleaving and chunking: calls finish in lock order, each with the reply the sequential system gives its own request, and the provider's state is the sequential one whenever the lock is free |
| Protocol.QuietWhenFree | src/stdiofs/rpc/rpc.c:49-83 | while the lock is free and the provider lives, both pipes are empty, nothing is half read, and no thread is past the lock |
| Protocol.OneMessageInFlight | src/stdiofs/rpc/stub.c:39-58 | at most one pipe holds bytes, and they are a piece of the lock holder's request or of the reply to it |
| Protocol.CallsCanFinish | src/stdiofs/rpc/rpc.c:49-83 | from every reachable state some run brings the holder of the lock to release it, unless the reply to that very call is over the size limit |
| Protocol.RunKeeps | src/stdiofs/rpc/stub.c:39-58 | every step of every run keeps the invariant behind these results |
| Concurrent.ConcurrentCallsAreDirect | src/stdiofs/fs/stub.c:11-24 | concurrent transparency: every finished call gave its caller the result of a direct call made after exactly the calls that had the lock before it, and left a robust out object as that call does |
| Concurrent.CallsFinish | src/stdiofs/rpc/rpc.c:49-83 | every file system call under way can be brought to its end, as long as the backend's answer to it makes a reply below the size limit |
| Concurrent.ProviderNeverGoes | src/stdiofs/rpc/stub.c:49-53 | with the proxies' own requests the provider never refuses, and whenever the lock is free the backend is where the direct calls leave it |
| Refinement.ReadCallIsStep | src/stdiofs/rpc/connection.c:20-43 | whatever is in the pipe and whatever happened since the last one, a read call of the client is a receive step of as many bytes, and returns none only on an empty pipe |
| Refinement.WriteCallIsStep | src/stdiofs/rpc/connection.c:82-99 | a write call of the client is a send step of as many bytes |
| Refinement.ProviderCallsAreSteps | src/stdiofs/rpc/connection.c:11-106 | the provider's read and write calls are its steps |
| Refinement.WriteLoopIsSteps | src/stdiofs/rpc/connection.c:73-106 | the write loop, under any unbroken script, is a run of send steps with the same bytes in the pipe |
| Refinement.ReadLoopIsSteps | src/stdiofs/rpc/connection.c:11-46 | the read loop, under any unbroken script, is a run of receive steps that moves what it needs or all that is there, and needs the rest |
| Refinement.ServedIsRun | src/stdiofs/rpc/stub.c:39-58 | a whole turn of the service loop is a run: the request is taken, and the reply handed over or the provider gone |
| Refinement.InvokedIsRun | src/stdiofs/rpc/rpc.c:43-84 | a whole invocation, with the turn it waits for, is a run from rest to rest, with the bytes it sends and takes and the reply it decodes |
| Capabilities.ListOperations | src/stdiofs/fs/stub_operations.c:44-68 | the stub's list holds the names of exactly the operations the backend has, in order |
| Capabilities.FuseOperations.SetOperation | src/stdiofs/proxyfs.c:306-413 | the chain of comparisons installs the named operation's own callback in its own field, and ignores any other name |
| Capabilities.FuseOperations.Install | src/stdiofs/proxyfs.c:431-437 | the cleared table after the callback has seen every listed name, in order |
| Service.ProxyFs.GetOperations | src/stdiofs/proxyfs.c:431-445 | the negotiated table after the whole exchange, or none when the exchange failed, with the names that were delivered installed in either case |
| Capabilities.NameIsUnique | src/stdiofs/proxyfs.c:306-413 | no two operations have the same name |
| Capabilities.NamesInstall | src/stdiofs/proxyfs.c:313-336 | each name, spelled out, installs the callback of its own field: `init` to `mknod` |
| Capabilities.MoreNamesInstall | src/stdiofs/proxyfs.c:337-360 | the same from `mkdir` to `link` |
| Capabilities.LaterNamesInstall | src/stdiofs/proxyfs.c:361-384 | the same from `chmod` to `read` |
| Capabilities.LastNamesInstall | src/stdiofs/proxyfs.c:385-413 | the same from `write` to `lseek` |
| Capabilities.NegotiationIsExact | src/stdiofs/proxyfs.c:306-445 | for every set of operations, the negotiated table holds exactly those, each with its own callback, and never `init` |
| Capabilities.NegotiationThroughTheStack | src/stdiofs/fs/proxy.c:31-47 | the same through request, pipes and reply, for any chunking |
| PythonCodec.OneFormat | provider/python/stdiofs_provider.py:17-63 | a message that is constructed with an id, given any values and asked for its bytes returns byte for byte the C serialiser's frame of the same values |
| PythonCodec.Message.Add | provider/python/stdiofs_provider.py:23-55 | each add method appends what the C encoder of that type does |
| PythonCodec.Message.AddU32 | provider/python/stdiofs_provider.py:23-28 | the four shifted and masked bytes are the big-endian bytes, for integers of any size and sign |
| PythonCodec.Message.AddI32 | provider/python/stdiofs_provider.py:30-31 | masking does not change them, so a negative value is its two's complement |
| PythonCodec.Message.AddU64 | provider/python/stdiofs_provider.py:33-37 | the two masked halves are the eight big-endian bytes |
| PythonCodec.Message.AddStr | provider/python/stdiofs_provider.py:39-44 | appends the C encoding of the string |
| PythonCodec.Message.AddStrings | provider/python/stdiofs_provider.py:46-50 | appends the C encoding of the list |
| PythonCodec.Message.GetBytes | provider/python/stdiofs_provider.py:57-63 | the first four cells become the big-endian length and the rest is kept |
| PythonCodec.MessageReader.ReadU32 | provider/python/stdiofs_provider.py:70-73 | the weighted sum is the big-endian number of the next four bytes; with fewer left it raises and does not move |
| PythonCodec.MessageReader.ReadI32 | provider/python/stdiofs_provider.py:75-79 | the signed value of the same word |
| PythonCodec.MessageReader.ReadU64 | provider/python/stdiofs_provider.py:81-84 | the big-endian number of the next eight bytes, though read as two words |
| PythonCodec.MessageReader.ReadStr | provider/python/stdiofs_provider.py:86-90 | the field the C decoder finds without its last byte, or, where the C decoder fails after the length, everything that is left |
| PythonCodec.MessageReader.ReadBytes | provider/python/stdiofs_provider.py:92-96 | the field the C decoder finds, or, where the C decoder fails after the length, everything that is left |
| PythonCodec.LoadFour | provider/python/stdiofs_provider.py:70-73 | the weighted sum is what the C decoder's byte loop computes |
| PythonCodec.ReadsWord | provider/python/stdiofs_provider.py:75-79 | the reader inverts the C encoding of every int |
| PythonCodec.ReadsLong | provider/python/stdiofs_provider.py:81-84 | the reader inverts the C encoding of every 64-bit word |
| PythonCodec.ReadsText | provider/python/stdiofs_provider.py:86-90 | the reader inverts the C encoding of strings and advances past it |
| PythonCodec.ReadsBytes | provider/python/stdiofs_provider.py:92-96 | the reader inverts the C encoding of bytes and advances past it |
| PythonCodec.BytesReadAlike | provider/python/stdiofs_provider.py:92-96 | the two decoders of bytes agree if and only if the declared size fits: past that the C decoder fails, and the reader returns what there is |
| PythonCodec.StringsReadAlike | provider/python/stdiofs_provider.py:86-90 | the two decoders of a fitting string field agree if and only if its only NUL is its last byte, or, for a field of no bytes, what follows it is a NUL or nothing |

## Left out

- Framing.Connection.Read: does not model a declared size below four when more bytes follow than the buffer holds; the source then writes past its allocation, and what happens is undefined (`NoOverrun`).
- Service.Rpc.Invoke: the same, for the smallest buffer; Service.FsProxy.Perform, Service.ProxyFs.GetOperations and Service.Stub.Loop inherit it.
- Remote.RequestArrives: does not cover strings with an interior NUL, which a C caller cannot pass, nor strings or written bytes of 4 GiB, whose requests are far over the size limit.
- Transparency.RemoteCallIsTransparent: does not cover a `read` of the largest size_t, the decoder's sentinel; `LargestSizeBorrows` says what happens then.
- Protocol.RunsLinearise: does not go past the first transport failure or reply at or over the size limit; `RejectedReplyKeepsAlignment` says what the next call finds after the latter.
- Protocol.CallsCanFinish: does not claim fairness, only that a finishing run exists.
- Refinement.InvokedIsRun: states the run in which the provider waits for the whole request; that other interleavings end the same way is `RunsLinearise`.
- Service.RunConserves: takes for granted that a stream holds less than 2^64 bytes.
- Wire.CStr: does not model reading past the allocation, where the source's behaviour is undefined; a string without a NUL ends with the data.
- A `readlink` backend that leaves the stub's buffer without a terminator: the junk text stands for whatever terminated string it holds.
- Calls of an operation the backend has no pointer for, which the negotiation rules out and the stub does not check.
- Failing allocation, freeing, and overflow of size_t in the buffer.
- The three encoders and decoders of uid, gid and dev: they share those of mode and offset.
- Text encoding: strings are bytes, and the Python reader's UTF-8 decoding cannot fail here.
- The Python file system handlers and process loop, passthroughfs, argument parsing, fork, signals and the connection monitor.
- The FUSE callbacks other than the installation of operations; libfuse is taken to be new enough to have lseek.
- The missing return value of `proxyfs_setoperation` (src/stdiofs/proxyfs.c:306-413): the list decoder ignores what the callback returns.
