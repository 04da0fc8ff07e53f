# A verified model of the kernel RPC-over-RDMA client

The repository is a kernel RPC client that sends fixed-size messages over RDMA, together with the older
krping ping/pong driver it grew from. This project models the parts that carry invariants and proves
them in Dafny 4.11. `dafny verify dfyconfig.toml` checks everything. The number of message buffers is a
parameter `n >= 1`; the code uses 4 (bitmap.c:4, rpc.h:32).

| file | models |
|---|---|
| `Bitmap.dfy` | bitmap.c: first-fit search, set, clear |
| `Codec.dfy` | byte order and message layout (rpc.h, rdma.h, rdma.c) |
| `RpcCommon.dfy` | rpc_common.c: taking and giving back a bit under the lock, with the retry loop |
| `Rdma.dfy` | rdma.c, rpc_client.c and the test's callback: sending, receiving, the completion loop, set-up |
| `SlotRing.dfy` | the request/response protocol as a step system, with a send as one step |
| `SlotInvariants.dfy`, `SlotTheorems.dfy` | what each of its steps keeps, and what every run satisfies |
| `SlotReuse.dfy`, `SlotWitness.dfy` | which slot a request gets, when slots are exclusive, and runs in which they are not |
| `SlotSends.dfy`, `SendWitness.dfy` | the protocol with `send_rdma_msg` one memory access at a time and no lock: what holds however sends interleave, when they amount to single steps, and a run in which they do not |
| `LockedRing.dfy` | threads and handler one memory access at a time, the bitmap under the spin lock and the sends under none, refining `SlotSends` and, where it can, `SlotRing` |
| `LockedWitness.dfy` | every run of `SlotSends` is such an interleaving, the harmful ones included |
| `RdmaProtocol.dfy` | the imperative code does what the protocol assumes of it |
| `PingPong.dfy` | bak/krping.c: client loop, receive classifiers, documented server loop, ping text |
| `Getopt.dfy`, `Krping.dfy` | bak/getopt.c in place over a buffer, and the option loop of `krping_doit` |
| `Options.dfy` | the shared `Option` type |

## The protocol and its environment

A run is any sequence of steps from the initial state: a requester takes the lowest clear bit as its slot,
sends (or fails to), the server answers any outstanding request, a response takes the receive buffer that
was posted longest ago, and one serial handler polls a completion, decodes the buffer, clears the bit named
by the *buffer's* `wr_id`, and posts the buffer again. That receive buffers are consumed in posting order is
an assumption about the device; the server is assumed to echo each header once. In `SlotRing` a send is one
step, so the device has read the message by the time it is posted, and nobody else writes the slot's buffer or
counter meanwhile; `EndToEndEcho` and the results on sequence numbers rest on that. `SlotSends` assumes neither:
a sender numbers and writes its message access by access, and the device reads the buffer any time after the
post. Nothing says that a response lands in the slot of its request: that is a premise of
`SlotReuse.SlotExclusivity`, which proves it is exactly what the intent stated at rdma.c:805 needs.

Results a maintainer may not expect:

* rdma.c:805 says a buffer stays allocated until its response arrives. The code frees the bit of the buffer
  the response landed in (rdma.c:482, rpc_client.c:15). Even a client with one request at a time drifts: from
  its second response on, the freed bit is the request's own slot only when n is 1 (`OneAtATimeMatches`), and
  for every n >= 2 some run with no failures gives two unfinished requests one slot (`SlotShared`). The stated
  intent is kept in every run exactly when n is 1 (`ExclusiveIffOneBuffer`).
* All the same, requests never outnumber buffers, the ring never loses one, and no run stalls, as long as
  sends succeed. `send_rpc_msg_to_server` ignores a failed send (rpc_client.c:119), and a single one can leave
  every bit set with nothing unfinished (`OneLostSendStalls`). Every set bit belongs to an unfinished request, a
  lost send, or a response that found its buffer's bit already clear (`BitsAccounted`); a run is stuck exactly
  when the last two kinds together number n and nothing else is left to do (`StuckExactly`).
* `send_rdma_msg` takes no lock, counting on one thread a slot (rdma.h:77). The drift breaks that: for every n >= 2
  some run with no failures has two threads about to send from one slot (`SendsCollide`; never when n is 1,
  `NeverCollideIffOneBuffer`), and then one can post a message with the other's wait queue and both can draw one
  number, so a response wakes the wrong requester (`SendsRace`, `RaceUnderLock`). Every message is its own request's in every run
  exactly when n is 1 (`OwnMessageIffOneBuffer`). For any n that holds, and with it all that is proved of
  single-step sends, in runs where responses land in their requests' slots or sends otherwise stay apart
  (`OwnWhenSlotsHold`, `MatchesRun`, `EchoUnderLock`). Flow control and progress need none of this
  (`FlowUnderLock`, `DrainsUnderLock`).
* Number 0 asks `send_rdma_msg` for a fresh number (rdma.c:772). A counter that wraps to 0 therefore sends a
  request whose number is not echoed; while sends stay apart, channel and wait queue still are (`EndToEndEcho`,
  `EchoWhileApart`, `ServerEcho`). Headers come back whole until a slot's (2^64-1)-th send (`WholeHeaderEcho`),
  every run long enough gets there (`NumbersRunOut`), and for every n some run with no failures loses a number
  this way (`WrapLosesNumber`).
* The comment at rdma.c:906 says numbering starts from 1; the first number sent is 2, because `alloc_seqn`
  increments before it returns (`SequenceNumbers`).
* A size or count out of range makes `krping_doit` return EINVAL, every other bad option -EINVAL
  (`Krping.DoitFields`). When several options are bad the last one decides which of the two it is.

Calls into code outside the repository are parameters: whether each allocation succeeds, what posting and
polling return, what other threads free between two attempts, and what `simple_strtoul` makes of a string.

## Model

| member | source | states |
|---|---|---|
| Bitmap.FindFirstClearBit | bitmap.c:6-15 | Reports whether any bit is clear; if so yields the lowest such index, if not leaves the caller's variable alone. |
| Bitmap.SetBit | bitmap.c:17-21 | Sets just that bit, and nothing when the index is out of range. |
| Bitmap.ClearBit | bitmap.c:22-26 | Clears just that bit, and nothing when the index is out of range. |
| Codec.SwapIsInvolution | rpc.h:35-36 | The one function behind `htonll` and `ntohll` undoes itself on every 64-bit value and either byte order. |
| Codec.FieldIsMostSignificantFirst | rdma.h:41-43 | Byte i of a field on the wire is base-256 digit 7-i of its value. |
| Codec.FieldValue | rdma.h:41-43 | The eight bytes of a field, from the first, are the base-256 digits of its value. |
| Codec.StoreConverted | rdma.c:774-779 | A converted value is stored as the same eight bytes on hosts of either byte order. |
| Codec.ReadWire | rdma.c:486-491 | A reader of either byte order recovers all three header fields and the data from a message. |
| Codec.WireLayout | rdma.h:40-45 | Number, channel, wait queue and data stand at offsets 0, 8, 16 and 24. |
| Codec.WireInjective | rdma.h:40-45 | Different messages have different bytes. |
| Codec.Format | rdma.c:771-784 | Writing field by field in the code's order leaves exactly the message's wire bytes in the buffer. |
| Codec.MsgBufSize | rdma.c:286-300 | Each of the two size helpers undoes the other: a buffer size holds this much data exactly when it is the one returned. |
| RpcCommon.RpcChannel.TryAlloc | rpc_common.c:11-16 | One locked attempt takes the lowest clear bit and sets it, or changes nothing when all are set; the lock is released. |
| RpcCommon.RpcChannel.AllocMsgbufId | rpc_common.c:4-27 | Every attempt but the last met a full bitmap; the last took the lowest clear bit, and the bitmap left is the one it met with that bit set and nothing else changed. Still retrying, it leaves the bitmap full. |
| RpcCommon.RetryTakes | rpc_common.c:10-22 | The same of the loop's outcome as a function of the bitmap and of what others free between attempts. |
| RpcCommon.RetryEnds | rpc_common.c:10-22 | The loop ends exactly when a bit was clear or somebody clears one. |
| RpcCommon.FreedIsReused | rpc_common.c:10-22 | When a full bitmap gives way, the bit handed out is the lowest of those just freed. |
| RpcCommon.RpcChannel.FreeMsgbufId | rpc_common.c:29-35 | Clears the bit under the lock and releases it. |
| Rdma.RdmaChannel.constructor | rdma.c:888-912 | A new channel has n zeroed slots with counters at 1, in state IDLE, with nothing posted or sent. |
| Rdma.RdmaChannel.SetupWr | rdma.c:249-278 | Every receive request gets its slot's number; counters are untouched. |
| Rdma.RdmaChannel.PostReceives | rdma.c:832-840 | On success the receives are posted in slot order, where the ring starts; otherwise the first refusal is returned with exactly the receives before it posted. |
| Rdma.RdmaChannel.SendRdmaMsg | rdma.c:752-808 | Only a valid slot's buffer and counter change; number 0 draws the slot's next, others are sent unchanged; the bytes posted are the message; the result says whether it went out. |
| Rdma.RdmaChannel.SendRequest | rpc_client.c:107-128 | With a clear bit, takes the lowest and sends from that slot with its next number, ignoring whether the post succeeded; with none, changes nothing. Other slots and channels are untouched. |
| Rdma.RdmaChannel.RpcHandler | rpc_client.c:9-21 | Frees the buffer's bit in the channel the message names and in no other, wakes the requester, and frees the three objects once each. |
| Rdma.ClearedBits | rdma.c:498-510 | Over any number of calls, each channel loses exactly the bits of the buffers whose messages named it. |
| Rdma.RdmaChannel.HandOn | rdma.c:480-522 | Header and data of the message in the buffer reach the handlers with the buffer's number; the channel becomes WORKING unless it is DISCONNECTED or in ERROR. |
| Rdma.RdmaChannel.UserHandler | rpc_client_test.c:11-30 | Wakes the wait queue named in the message and frees message and parameter. |
| Rdma.RdmaChannel.ReceiveMsg | rdma.c:450-529 | Rejects a wrong length, hands on header and data otherwise, and on every path, out of memory included, leaves the set of live heap blocks as it was. |
| Rdma.RdmaChannel.HandleCompletion | rdma.c:541-591 | A failed or unknown completion gives -1 and a successful send, write or read gives 0, both changing nothing; a receive of a wrong length gives -1, without memory -12, else it is handed on once and its buffer posted again once, unless that fails with the result returned. |
| Rdma.RdmaChannel.CqEventHandler | rdma.c:531-603 | The loop handles exactly the longest non-failing prefix (and a receive whose re-post fails), once each and in order, skips flushed entries, ends in ERROR with the failing code exactly when a completion, re-post or poll fails, else returns whether anything was flushed; the heap is balanced over the whole loop. |
| Rdma.LoopFails | rdma.c:546-602 | The first completion that is neither flushed, a successful send, write or read, nor a whole receive that can be posted again ends the loop in ERROR with -1, -12 or the post's result by what is wrong, after exactly the calls and re-posts before it (and its own call if only its post failed). |
| Rdma.LoopGoesThrough | rdma.c:538-603 | With none such, all receives are handed on and posted again; a failing poll gives its result and ERROR, else the result is 1 exactly when something was flushed. |
| Rdma.AfterOneMore | rdma.c:569-585 | Handling calls one at a time adds up to handling the list: same calls, wake-ups, cleared bits and re-posts. |
| Rdma.GoneWrong | rdma.c:546-596 | A failing turn makes the loop end with that turn's code, having handled exactly the turns before it. |
| RdmaProtocol.ReceiveUndoesSend | rdma.c:460-498 | Whatever the two byte orders, receiving a sent message yields its header and data; any other length is rejected with -1. |
| RdmaProtocol.ServerEcho | rdma.c:772-777 | A server answering by `send_rdma_msg` returns the header it got, exactly when the number was not 0 (or its own counter is about to wrap). |
| RdmaProtocol.HandlerCallIsARun | rdma.c:531-603 | One failure-free call of the completion loop over what is queued, with flushed entries and completions of sends, writes and reads anywhere among the receives, is a run of the protocol: same bits in the client's channel and no other channel touched, the same buffers posted behind what was posted before, same dispatched headers. |
| RdmaProtocol.QueuedOurs | rdma.c:498-499 | In every state of every run all responses queued name the client's own channel, so the handler never follows another address. |
| RdmaProtocol.Start | rdma.c:832-912 | Creating a channel, numbering its receives and posting them gives the protocol's initial state: bits, counters at 1, receive queue. |
| RdmaProtocol.Request | rpc_client.c:107-128 | A request through the code on a channel that mirrors a run leaves it mirroring that run with Alloc and Send (or the failed send, or a vain attempt) added, and the message given to the device is the one the protocol has at the server. |
| RdmaProtocol.ServeQueue | rdma.c:531-603 | Calling the completion handler on a channel that mirrors a run, on whatever is queued and such other completions, leaves it mirroring a longer run with the queue empty, having called the user's handler for exactly that run's new dispatches; it returns 1 exactly when something was flushed, and a response makes a channel not DISCONNECTED or in ERROR WORKING. |
| SlotInvariants.RingKept | rdma.c:577-579 | Every step keeps the ring a rotation of all buffers and the handled buffers in round-robin order. |
| SlotInvariants.TallyStep | rpc_client.c:107-128 | How each step changes the numbers of unfinished, unanswered and lost requests. |
| SlotInvariants.EchoKept | rdma.c:486-510 | Every step keeps each message, wherever it is, carrying the header of its own request, and dispatches distinct. A send is one step here (see `SlotSends.MatchesRun`). |
| SlotInvariants.FlowKept | rpc_common.c:4-35 | Every step keeps unfinished requests within the set bits, and a clear bit whenever nothing is unfinished or lost. |
| SlotInvariants.CoreKept | rpc_common.c:4-35 | Every step but a send keeps ring, queue, counts, flow bounds and the channel named in each message, whatever else messages say. |
| SlotInvariants.CountedPush | rdma.c:743-750 | Numbering one more message keeps every counter one more than the sends on its slot, modulo 2^64. |
| SlotTheorems.FlowControl | rpc_common.c:4-35 | In every state of every run: unfinished requests <= set bits <= n, and requests still awaiting a buffer <= posted receives plus the one in the handler (without it before its bit is freed). |
| SlotTheorems.RingRotation | rdma.c:577-579 | In every state the ring is 0..n-1 rotated by the number of re-posts, without repeats, and the k-th handled response was in buffer k mod n. |
| SlotTheorems.Conservation | rpc_client.c:9-21 | The requests dispatched are exactly the finished ones, each once; every other request is unfinished or lost to a failed send, and the numbers add up. |
| SlotTheorems.BitsAccounted | rpc_common.c:4-35 | In every state of every run the set bits are as many as the unfinished requests, the lost sends, and the responses that found their buffer's bit already clear. |
| SlotTheorems.NoStall | rpc_common.c:10-22 | While sends succeed a full bitmap has an unfinished request behind it; while any request is unfinished a step other than a retry is possible. |
| SlotTheorems.StuckExactly | rpc_common.c:10-22 | Nothing but the retry is possible exactly when nothing is unfinished or waiting to be re-posted and lost sends and wasted frees number n; with nothing unfinished the bitmap is full exactly then. |
| SlotTheorems.ProgressIsBounded | rdma.c:538-592 | Between new requests, retries aside, at most 6 steps per unfinished request plus one are taken, failed sends included. |
| SlotTheorems.Drains | rpc_common.c:10-22 | Every run can be brought to rest within that bound; then nothing is unfinished and, if no send was lost, a bit is clear. |
| SlotTheorems.EndToEndEcho | rdma.c:486-510 | Every dispatch carries the channel, wait queue and (unless it was 0) number of a request of this channel, and no request is dispatched twice. A send is one step here (see `SlotSends.MatchesRun`). |
| SlotTheorems.WholeHeaderEcho | rdma.c:772-777 | A dispatch carries its request's whole header unless the request was a send on its slot whose ordinal is 2^64-1 modulo 2^64, which are exactly the requests numbered 0; so always while the slot has made fewer than 2^64-1 sends. A send is one step here (see `SlotSends.MatchesRun`). |
| SlotTheorems.SequenceNumbers | rdma.c:743-750 | The k-th send on a slot carries k+1 modulo 2^64. A send is one step here (see `SlotSends.MatchesRun`). |
| SlotTheorems.NumbersIncrease | rdma.c:743-750 | On one slot the numbers are nonzero and strictly increase over the first 2^64-2 sends. A send is one step here (see `SlotSends.MatchesRun`). |
| SlotTheorems.NumbersRunOut | rdma.c:743-750 | Any run with more than n (2^64-2) sends has given some request number 0. A send is one step here (see `SlotSends.MatchesRun`). |
| SlotTheorems.CountersBalance | rdma.c:903-907 | Before any wrap the counters minus one sum to the number of sends, so echoes change no counter. A send is one step here (see `SlotSends.MatchesRun`). |
| SlotReuse.OneAtATimeClient | rpc_common.c:4-35 | In every run of a client with one request at a time, for every n: request 0 gets slot 0, request k slot (k-1) mod n; after response k bits 0..k-1 are set while k < n, later all but k mod n; a bit is always clear. |
| SlotReuse.ExclusiveStep | rdma.c:482 | A step keeps "bits set = slots of unfinished or lost requests, no sharing" exactly when it does not handle a response from another slot's buffer. |
| SlotReuse.SlotExclusivity | rdma.c:805 | A run keeps slots exclusive in that sense throughout exactly when every handled response landed in the slot of its request. |
| SlotReuse.OneAtATimeMatches | rpc_client.c:15 | With one request at a time a response matches its slot exactly when it is the first or n is 1. |
| SlotWitness.SlotShared | rpc_client.c:15 | For every n >= 2 some run without failures has two unfinished requests holding one slot. |
| SlotWitness.ExclusiveIffOneBuffer | rdma.c:805 | Slots are exclusive in every state of every run exactly when there is one message buffer. |
| SlotWitness.SendsCollide | rdma.h:77 | For every n >= 2 some run without failures has two requests on one slot, neither yet sent. |
| SlotWitness.NeverCollideIffOneBuffer | rdma.h:77 | No state of any run has two unsent requests on one slot exactly when n is 1. |
| SlotWitness.OneLostSendStalls | rpc_client.c:119-128 | For every n some run with a single failed send reaches a state with every bit set, nothing unfinished, and only the retry possible. |
| SlotWitness.WrapLosesNumber | rdma.c:772-777 | For every n some run of one request at a time, without failures, ends with a response whose number is not its request's. |
| SlotWitness.DrainQueue | rdma.c:538-592 | Draining the completion queue is a run that clears the queued buffers' bits and re-posts the same buffers in queue order. |
| SlotSends.MemKept | rdma.c:743-795 | Every access of a send, wherever others are in theirs, and every other step keeps the flow-control invariants, and every message names the client's channel. |
| SlotSends.FlowHowever | rdma.c:743-795 | However unlocked sends interleave on shared slots: unfinished requests <= set bits <= n, unanswered ones within the receives, the ring a rotation of all buffers. |
| SlotSends.LeaveMatches | rdma.c:769-795 | A send nobody disturbed ends, in the device's reading or a refusal, as SlotRing's single step, with exactly its own header and data in the buffer and its number in the counter. |
| SlotSends.MatchesRun | rdma.c:743-795 | While no two sends are under way on one slot, what happened is a run of SlotRing, message for message. |
| SlotSends.ApartSendsOwn | rdma.c:769-795 | Then every message the device takes is its own request's header and data. |
| SlotSends.OneBufferApart | rdma.h:77 | With one buffer sends never meet. |
| SlotSends.MatchedApart | rdma.h:77 | Sends never meet while every response handled landed in its own request's slot. |
| SlotSends.OwnWhenSlotsHold | rdma.c:743-795 | In either case every message is its own request's and the run is one of SlotRing. |
| SlotSends.EchoWhileApart | rdma.c:486-510 | While sends stay apart, dispatches carry the header of distinct finished requests (the number unless it was 0). |
| SlotSends.NumbersWhileApart | rdma.c:743-750 | While sends stay apart, the k-th send on a slot carries k+1 modulo 2^64, and the counter in memory of a slot nobody sends on is one more than its sends. |
| SendWitness.Lift | rdma.c:752-808 | Every run of SlotRing is one of sends access by access, in which no two meet. |
| SendWitness.SendsRace | rdma.c:769-795 | For every n >= 2 some run with nothing refused gives two requests of one slot one number and sends one with the other's wait queue, and its response is dispatched to that queue. |
| SendWitness.OwnMessageIffOneBuffer | rdma.c:769-795 | Every message of every run is its own request's exactly when n is 1. |
| LockedRing.Simulates | rpc_common.c:11-16 | Each lock, scan, set, clear or unlock step, and each access of a send, is one act of SlotSends or none; the bit set is clear and lowest at that moment. |
| LockedRing.LockKept | rpc_common.c:11-16 | Every fine step keeps the lock exclusive and what its holder has seen of the bitmap true. |
| LockedRing.Refines | rpc_common.c:4-35 | Every interleaving of any number of threads and the handler is matched by a run of SlotSends reaching the same memory. |
| LockedRing.FlowUnderLock | rpc_common.c:4-35 | What does not depend on the words of a message (flow-control bounds, ring rotation, queues, counts, the channel named) holds under every interleaving of locked and unlocked accesses. |
| LockedRing.EchoUnderLock | rdma.c:743-795 | With one buffer, or every response handled from its own request's slot, or sends otherwise apart on each slot, an interleaving reaches a state of a run of SlotRing, so the echo and number invariants hold too. |
| LockedRing.HolderReleases | rpc_common.c:11-16 | A thread never waits inside the lock and gives it up within n + 3 of its own steps. |
| LockedRing.NoStallUnderLock | rpc_common.c:10-22 | While a request is unfinished an essential step is possible, unless the handler waits for a lock holder that is able to move. |
| LockedRing.DrainsUnderLock | rpc_common.c:10-22 | Any interleaving, sends included, can go on, within (s + 26) n + s + 33 steps for messages of s data bytes and with no new request, retry or failed send, until nothing is unfinished; then, if no send was lost, a bit is clear. |
| LockedWitness.Realizes | rpc_common.c:4-35 | With a thread for each request, every run of SlotSends is an interleaving under the lock that reaches the same memory. |
| LockedWitness.RaceUnderLock | rdma.c:769-795 | For every n >= 2 some interleaving dispatches a response to the wait queue of another request of the same slot and number. |
| PingPong.OnlyTurn | bak/krping.c:643-695 | In each of the fifteen phases of a ping exactly one step of either side, channel or device is possible. |
| PingPong.TurnAdvances | bak/krping.c:155-192 | That step leads to the next phase, the last one to the next ping. |
| PingPong.Lockstep | bak/krping.h:40-70 | In every run at most one message is in flight, neither side reaches ERROR, the client never breaks out, and the server's receives are classified alternately READ_ADV and WRITE_ADV. |
| PingPong.PongIsPing | bak/krping.c:686-699 | Whenever the client passes its second wait for ping p, `rdma_buf` holds exactly what was built for ping p, for every p and any text. |
| PingPong.NoDeadlock | bak/krping.c:643-703 | A run can go on until the client is done, after exactly 15 steps a ping and one more, with every ping returned. |
| PingPong.Plays | bak/krping.c:643-703 | For every setup there are runs of every length up to the end, and the full one returns every ping. |
| PingPong.KrpingCb.ClientReceives | bak/krping.c:178-192 | A message of the right length moves the client on as the protocol says; any other changes nothing and is an error. |
| PingPong.KrpingCb.ServerReceives | bak/krping.c:155-176 | The same for the server, recording what was advertised. |
| PingPong.KrpingCb.CqEventHandler | bak/krping.c:194-282 | In ERROR it does nothing; otherwise state and advertisement become what the receive, read, write and failed completions make of them, in order, up to the first fatal one or a failed poll (ERROR); flushed completions and those of sends change neither. |
| PingPong.CompletionMeans | bak/krping.c:155-265 | Which completions are fatal, and the state each of the others leads to, by kind, side and state. |
| PingPong.OthersCount | bak/krping.c:213-229 | A batch comes to the same with flushed completions and those of sends left out. |
| PingPong.Batches | bak/krping.c:211-276 | Two batches one after the other come to the same as one. |
| PingPong.LastAdvertised | bak/krping.c:155-176 | The server ends up with the last whole message received up to and including the first fatal completion. |
| PingPong.BatchFails | bak/krping.c:211-281 | Such a batch ends in ERROR exactly when a completion is fatal or polling fails. |
| PingPong.StepsAreCompletions | bak/krping.c:224-265 | What the protocol's steps do to the two states is what the handler does with the completions they stand for; those of sends change neither. |
| PingPong.BuildPing | bak/krping.c:647-657 | The loop with its wrapping byte leaves "rdma-ping-", the decimal of p without leading zero, ": ", the letters 65 + (p + i - cc) mod 58, and a final NUL, byte by byte. |
| PingPong.BuildPings | bak/krping.c:642-657 | Over the whole ping loop with its wrapping start, ping p goes out with exactly those bytes, whatever the buffer held. |
| PingPong.PingTextInjective | bak/krping.c:647 | Different pings have different texts, so a matching pong is the pong of that ping. |
| Getopt.SplitJoin | bak/getopt.c:33-36 | Splitting what was joined by commas gives back the pieces. |
| Getopt.JoinSplit | bak/getopt.c:33-36 | Joining the pieces gives back the string, and no piece holds a comma. |
| Getopt.AllPieces | bak/getopt.c:33-74 | Calling until 0 interprets every nonempty piece between commas, once and in order, errors included. |
| Getopt.OptionRoundTrip | bak/getopt.c:33-72 | Any list of well-formed options, printed with any empty pieces, parses back to the same options, arguments and numbers. |
| Getopt.CutInPlace | bak/getopt.c:40-42 | Writing a NUL over a separator leaves the two halves as strings in the buffer. |
| Getopt.StrSep | bak/getopt.c:34 | Takes the first piece off the buffer's string in place; only the separator is overwritten. |
| Getopt.KrpingGetopt | bak/getopt.c:26-75 | One call returns what the piece means by the table, moves `options` strictly forward, and writes only into what it has read, so earlier arguments stay readable. |
| Getopt.LookUp | bak/getopt.c:44-74 | The table scan decides as the first row of that name does, with the right error otherwise. |
| Getopt.ErrorsOf | bak/getopt.c:44-74 | -95 for a name not in the table, -22 for an argument missing or not wanted, -33 for a number that does not use up its text, and otherwise the value of the first row of that name. |
| Krping.StickyError | bak/krping.c:1009-1040 | The error flag ends clear exactly when no piece is harmful; once set it is never cleared. |
| Krping.HarmlessIsAcceptable | bak/krping.c:45-67 | A piece leaves the flag alone exactly when it is one of the six options, rightly used and in range; it names the role exactly when it is "client". |
| Krping.ToInt | bak/krping.c:1010 | Assigning an unsigned long to an int gives the value in range congruent to it modulo 2^32. |
| Krping.SmallNumbers | bak/krping.c:1009-1031 | Of the numbers below 2^31 exactly 1 to 131072 are accepted as a size, and all as a count or port. |
| Krping.DoitAccepts | bak/krping.c:992-1052 | `krping_doit` goes on exactly when every nonempty piece is acceptable and "client" is among them; size and count are then in range. |
| Krping.LastOneCounts | bak/krping.c:994-1037 | Whatever came before: of repeated options the last counts, verbose flags add up, fields no option names stay, and the last harmful result decides the error. |
| Krping.DoitFields | bak/krping.c:988-1052 | Port, size, count and address come from the last piece giving that option a value that converts, else keep their defaults (a size or count below 2^31 is stored as it is); each "verbose" counts once; the return value is 22 (EINVAL) when the last unacceptable piece is a size or count out of range, -22 when it is any other or when all are acceptable and "client" is missing, else 0. |
| Krping.KrpingDoit | bak/krping.c:969-1052 | The in-place loop terminates with the fields and return value of that parse, and the address it kept is still intact in the buffer. |

## Left out

- Bitmap: a byte of the bitmap is modelled as a bool, because the code only asks whether it is zero.
- RpcCommon.RpcChannel.AllocMsgbufId: the source retries for ever; the method stops when the given list of other parties' frees is used up. Endless retrying is the Spin step of SlotRing.
- LockedRing.NoStallUnderLock: lets a retrying thread hold the lock the handler wants; a spin lock promises no fairness, so it is not claimed that the handler gets its turn under every schedule, only that it can (`DrainsUnderLock`).
- SlotTheorems.EndToEndEcho: about runs in which a send is one step; `SlotSends.EchoWhileApart` is the same for sends access by access, under a premise `SendWitness.SendsRace` shows to be needed.
- SlotTheorems.WholeHeaderEcho: as EndToEndEcho; it carries over by `SlotSends.MatchesRun`.
- SlotTheorems.SequenceNumbers: as EndToEndEcho; `SlotSends.NumbersWhileApart` is the same access by access.
- SlotTheorems.NumbersIncrease: as WholeHeaderEcho.
- SlotTheorems.NumbersRunOut: as WholeHeaderEcho.
- SlotTheorems.CountersBalance: as WholeHeaderEcho.
- SlotInvariants.EchoKept: as WholeHeaderEcho.
- SlotSends: each header field, each data byte and each read or write of a counter is one access; the memory of the machine is taken to be sequentially consistent.
- SlotRing: send completions, which the handler ignores, are not queued.
- SlotRing: flushed or failed completions do not occur in its runs; `Rdma.RdmaChannel.CqEventHandler` covers them for one call.
- Rdma.RdmaChannel.SendRdmaMsg: the caller's data must hold `msgdata_size` bytes and the slot number must not be negative, as the copy and the index in the source need.
- Rdma.RdmaChannel.ReceiveMsg: a message handed on must name one of the channels there are; the code would follow any address (`RdmaProtocol.QueuedOurs` shows that responses of the protocol name the client's own).
- Rdma.RdmaChannel.RpcHandler: as ReceiveMsg.
- Rdma.RdmaChannel.HandOn: as ReceiveMsg.
- Rdma.RdmaChannel.HandleCompletion: as ReceiveMsg, for each receive handed on.
- Rdma.RdmaChannel.CqEventHandler: as ReceiveMsg, for each receive handed on.
- PingPong.BuildPings: as BuildPing, for every ping sent.
- PingPong.BuildPing: the buffer must hold the header and its NUL, as `sprintf` needs; the code accepts sizes too small for that.
- PingPong.KrpingCb.CqEventHandler: statistics, wake-ups, and the `frtest` early return (no accepted option sets it) are not modelled.
- PingPong: the server's main loop is not in the repository; it follows bak/krping.h:40-50, each wait being for the state the step needs. Errors, interrupted waits, and the overflow of `ping` are not modelled.
- Krping.KrpingDoit: stops where `rdma_create_id` is called; `port` is kept in host order, and `in4_pton` is not modelled (its result is ignored by the source).
- Connection management (`cma_event_handler`, `bind_client`, `connect_client`): its waits need not end, because error events leave `state` unchanged (rdma.c:76-85), and what remains is one assignment per event.
- Verbs, DMA mapping, fast-registration keys and wait queues: replaced by a receive queue, a completion queue, abstract buffer names and nondeterministic success. The queue pair is assumed to take n receives although rdma.c:153 asks for 2.
- Release of resources when set-up fails: `errno` is never assigned (rdma.c:14) and `init_rdma_ch` ignores `run_client`'s result (rdma.c:943), so no general claim holds.
- Statistics, logging, proc files, module loading, and the superseded copies under bak/.
