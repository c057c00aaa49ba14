# DistWalk, modelled and verified in Dafny

DistWalk nodes exchange small programs: flat lists of COMPUTE, STORE, LOAD, FORWARD and REPLY commands laid
end to end in a message. A node executes the commands meant for it, suspends on storage and on forwards, and
ships the sub-programs inside a FORWARD context to other nodes. This project models that machinery and proves
what it is for.

- **Programs.** `Layout` has the byte layout and the two directions of encoding, `Options` the option records; `Walk` the walks over command
  lists; `Tree` the trees that flat lists encode, with proofs that every walk recovers the tree; `Message` the
  pointer-walking loops over bytes, for arbitrary buffers.
- **Nodes.** `Node` has the request handlers as functions of a request's state, `NodeRequest` the same handlers
  as an object that works on message bytes and is proved against them; `Quorum` one FORWARD context under every
  history of replies and timeouts. `ReplyMessage` has the reply's own bytes. `Programs` gives programs their tree
  semantics, `Network` runs a request over the whole network, with the connections that nodes close themselves, and
  `Failures` shows exactly when that goes wrong.
- **Buffers and tables.** `Connection` (framing and compaction of the receive buffer), `SendBuffer`,
  `RequestTable` (slots and linked lists), `PriorityQueue` (indexed heap), `StorageWorker`, `Poll` and `PollSets`.
- **Templates.** `Template` (ccmd_skip and ccmd_dump), `TemplateTree` (template trees become message trees) and
  `EndToEnd` (from a template to the log of the network).

Everything outside the program's own logic enters as an input: which bytes a receive delivers, how many bytes a
send takes, which descriptors a wait reports, when a timer expires, what a distribution or the random generator
yields, and in which order deliveries, storage acknowledgements and replies happen.

Main results: `Network.DistributedMeaning`, `Failures.MeaningExactly`, `EndToEnd.TemplateMeaning`, `Quorum.WhileInContext`,
`Quorum.MovesPast`, `Quorum.NothingAgain`, `Quorum.BoundedSends`, `Tree.SkipSiblings`, `Tree.NextDest`,
`Tree.BranchTail`, `Tree.FlatInjective`, `Connection.ConnFraming`, `Connection.Conn.ReqRemove`,
`PriorityQueue.Partition`, `StorageWorker.AckAfterSync`, `RequestTable.RemoveChained`, `TemplateTree.CompiledTree`,
`TemplateTree.TreeExactly`, `Template.TwoSkipsAgree`, `Poll.DrainExact`, `Poll.ReportedOnce` and
`Poll.BackendsAgree`.

Every lemma is marked `{:induction false}`: each proof is the one written down.

## Properties that do not hold as one would expect

- *Consecutive forwards to one node.* When the last reply of a context resumes a request and it suspends again,
  `handle_forward_reply` returns 0 (src/dw_node.c:598), `obtain_messages` takes that for a failure (927-929), and
  `exec_request` closes the connection the reply came on (1112) and gives up requests on a context that starts with
  that node (1124-1145). A request that has just forwarded to that node again, or is about to, is answered with an
  error at once or waits forever. `Failures.MeaningExactly` proves that no run of a program goes wrong if and only if
  the program keeps such contexts apart (`Programs.Apart`): after a context, no forward to one of its destinations
  before the next suspension, and no storage wait right in front of a context that starts with one of them and has
  no retries. `Failures.TwiceFails` is the run of the shortest such program, two forwards to the same node.
- *Small replies.* A reply is recognised by the EOM behind its header, which the code looks for without asking whether
  it lies inside the message (921). `ReplyMessage.ReplyRecognised` proves that a reply is recognised, whatever follows
  it, if and only if its size is at least 16; the client allows 12.
- *Request id -1.* `req_get_by_id` returns the free last slot for the id 0xFFFFFFFF, which a peer may send
  (`RequestTable.Table.ReqGetById`, with the input in `RequestTable.GhostRequest`).
- *Send order.* `conn_prepare_send_message` places a message at `send_buf + curr_send_size`, not behind the
  pending bytes that start at `curr_send_buf` (compare `get_send_buf`, src/connection.c:330-333). A message
  submitted after a partial send therefore overwrites pending bytes or is lost. `SendBuffer.SendOrder` proves
  that order is kept if and only if the cursor is at the start of the buffer. `SendBuffer.LostOnRun` is the loss
  on a run: any message on a new connection, any partial send of it, and any next message that does not end in a
  zero byte.
- *Withdrawing interest in the poll backend.* `dw_poll_mod` compares the position it found with a count that a
  deletion has just changed. `Poll.WithdrawnStays` proves that a descriptor whose interest is withdrawn stays
  registered exactly when ONESHOT is passed alone and the descriptor was last in the array or not registered.
  ONESHOT alone is legal for the function, but no call in the repository passes it: every call outside
  src/dw_poll.c passes IN or OUT, or 0 by way of `dw_poll_del`.
- *Skips that leave their body.* A template compiles to a tree-shaped message if and only if no PSKIP that the
  dump reaches and takes goes beyond its own body (`TemplateTree.TreeExactly`); otherwise the message is cut off
  at that skip and lacks at least a REPLY (`TemplateTree.CutProg`, `TemplateTree.OverrunCuts`).
- *Room for headers.* The checks at src/ccmd.c:69-76 and src/message.c:185 do not count the message header. A
  copied message outgrows the room announced for it exactly when that room holds the tail and its EOM but not the
  header besides (`Message.MessageCopyTail`, with inputs for each of the twelve sizes in `Message.CopyBeyondRoom`).
  A dump writes beyond its message exactly when `Template.StraysExactly` says, and then fails after writing
  (`Template.CcmdDump`, with an input in `Template.DumpBeyond`). Both members only ask that the memory holds what
  is written.
- *Packet sizes.* `single_start_forward` sends `pkt_size` bytes whatever the branch needs (src/dw_node.c:489). The
  receiver sees the commands inside that size (`NodeRequest.Request.SendBranch`), which is the whole branch when
  the size is large enough (`Node.ClipWhole`).
- *Retries.* The comment at src/dw_node.c:983 says that a timeout does not tell who has replied. The code does:
  `Quorum.WhileInContext` and `Quorum.OwedTo` prove that a retry sends only to destinations not heard from.

## Model

| member | source | states |
|---|---|---|
| `Layout.EncodeDecode` | src/message.h:66-114 | the bytes a bounded walk passes over are the encoding of the commands it sees, inside the message |
| `Layout.DecodeEncode` | src/message.h:66-114 | a command list closed by its only EOM is read back exactly from its encoding, whatever bytes follow |
| `Layout.DecodeShape` | src/message.h:99-114 | on any buffer, what a walk sees is well sized, has an EOM only at its end and stays in bounds |
| `Layout.EncodeLength` | src/message.c:48-67 | the encoding of well-sized commands has the length that cmd_type_size adds up to |
| `Options.FwdFields` | src/message.h:20-35 | every field of a forward's options is read back where the struct puts it |
| `Options.StoreFields` | src/message.h:43-48 | the same for STORE: offset, bytes, wait_sync and device |
| `Options.LoadFields` | src/message.h:37-41 | the same for LOAD |
| `Options.ReplyFields` | src/message.h:60-64 | the same for REPLY's size |
| `Options.BareFields` | src/message.h:50-52 | COMPUTE's time, and the size of commands without options |
| `Walk.SkipSuffix` | src/message.c:87-121 | cmd_bounded_skip only moves forward over the commands in front of it, on any command list |
| `Walk.ToForwardSuffix` | src/message.c:126-158 | cmd_bounded_next_forward only moves forward over the commands in front of it |
| `Tree.SkipSiblings` | src/message.c:87-121 | on any tree, skipping n contexts from an item lands on the n-th following sibling or the body's closing REPLY |
| `Tree.SkipBeyond` | src/message.c:87-121 | skipping beyond the items of a message runs over its REPLY to the EOM and then to NULL |
| `Tree.SkipCtx` | src/message.c:97-112 | walking over a nested, multi-destination or branched context keeps the nesting count exact |
| `Tree.NextDest` | src/message.c:126-158 | the walk goes from a destination to the next one of the same context and then to NULL, never into a nested or later context |
| `Tree.TailOfProg` | src/message.c:168-196 | from the first command of a program, the tail copied is the whole program up to its matching REPLY, then EOM |
| `Tree.BranchTail` | src/message.c:168-196 | from any destination, the tail copied is exactly the body of its own branch, whatever is nested in it or follows |
| `Tree.FindIsIndex` | src/dw_node.c:536-543 | find_forward_reply_id is the index of the address among the destinations of the context, or -1 |
| `Tree.ReplyIdBijection` | src/dw_node.c:536-543 | with distinct addresses, reply ids and destinations correspond one to one |
| `Tree.FlatInjective` | src/message.c:85-158 | a flat list encodes one tree only, so counting FORWARD_BEGIN and REPLY loses nothing |
| `Tree.ProgramReadsBack` | src/message.h:73-114 | a program written to bytes and closed by an EOM decodes to itself |
| `Message.SkipContext` | src/message.c:97-112 | the inner loop of cmd_bounded_skip terminates, stays in bounds and skips one context, on any bytes |
| `Message.CmdBoundedSkip` | src/message.c:87-121 | the loops over bytes compute the skip of the command list seen, NULL included, for any cursor and count |
| `Message.CmdBoundedNextForward` | src/message.c:126-158 | the loop over bytes computes the next destination of the command list seen, strictly further on; NULL and cursors out of bounds give NULL |
| `Message.MsgNumCmd` | src/message.h:116-124 | the count is that of the commands before the EOM or the end of the message |
| `Message.FindReply` | src/message.c:172-180 | the search loop stops at the first REPLY or EOM of its own level, in bounds |
| `Message.MessageCopyTail` | src/message.c:168-196 | succeeds exactly when the tail exists and fits; then the destination decodes to the tail and an EOM with req_size its length, and no other byte changes; the new size is within the announced room exactly when the header fits besides |
| `Message.CopyBeyondRoom` | src/message.c:185-192 | for each room that holds a one-REPLY tail but not the header, the copy succeeds and is longer than the room |
| `Message.TailBytes` | src/message.c:182-187 | the bytes between the cursor and the end of its matching REPLY encode exactly the tail |
| `Message.CopyDecodes` | src/message.c:187-192 | a reader of the copied bytes sees the tail, closed by one EOM |
| `Node.SingleSends` | src/dw_node.c:346-362 | for a destination of a context, single_start_forward sends its branch program, or nothing when its bit is set, and does not fail |
| `Node.ClipWhole` | src/dw_node.c:488-489 | a packet whose size holds the message carries all of it |
| `Node.RoundSends` | src/dw_node.c:520-526 | a round sends to exactly the destinations whose bit is clear, in order, each its own branch program |
| `Node.OddCommands` | src/dw_node.c:827-900 | an EOM or nothing ends a request, an unknown command leaves it as it is, a stray FORWARD_CONTINUE is an error |
| `Node.BranchMissing` | src/dw_node.c:481-486 | a context whose first branch runs out of the message is an error and sends nothing |
| `Programs.ServesPrefix` | src/dw_node.c:822-901 | on any program a node executes the commands in front of the first that suspends, fails on a missing storage device without executing it, and leaves the cursor behind a storage command |
| `NodeRequest.Request.constructor` | src/dw_node.c:932-940 | a received message becomes a request at its first command with no context open and the message's status, whatever its slot held before |
| `NodeRequest.Request.FindForwardReplyId` | src/dw_node.c:536-543 | the loop over bytes finds the index of the address in the context |
| `NodeRequest.Request.SendBranch` | src/dw_node.c:473-503 | the datagram sent has the packet size chosen, the request's id and its own size in the header, and decodes to the branch body and an EOM as far as it reaches; nothing is sent when neither a REPLY nor an EOM ends the branch |
| `NodeRequest.Request.SingleStartForward` | src/dw_node.c:337-362 | the byte-level handler agrees with the state-level one, on failure too |
| `NodeRequest.Request.StartForward` | src/dw_node.c:508-528 | opens a context only if none is open, and sends a round |
| `NodeRequest.Request.ProcessSingleMessage` | src/dw_node.c:822-901 | executes, suspends, forwards, replies or fails as the state-level interpreter does, leaving the same state and log; a reply sends exactly its message |
| `NodeRequest.Request.HandleForwardReply` | src/dw_node.c:568-603 | on the request a reply belongs to: records or drops the reply, or moves past the context and goes on, as the state-level handler does, with its return value |
| `NodeRequest.Request.LoseConnection` | src/dw_node.c:1124-1145 | when a connection was closed, exactly a request on a context that starts with its peer and has no retries goes to its REPLY with an error |
| `NodeRequest.Request.SendReply` | src/dw_node.c:636-643 | one message of the size asked for is sent; if it covers the EOM it is recognised and carries the id of the message answered and the status |
| `NodeRequest.ReplyComesBack` | src/dw_node.c:640-640 | the reply to a message that a request forwarded is recognised and carries that request's id |
| `ReplyMessage.ReplyRecognised` | src/dw_node.c:919-927 | a reply is framed and taken for a reply, whatever follows it, if and only if its size covers the EOM |
| `NodeRequest.Request.HandleTimeout` | src/dw_node.c:1014-1031 | retries, skips or gives up as the state-level handler does |
| `Quorum.RoundOf` | src/dw_node.c:833-842 | serving a FORWARD_BEGIN, the first time or again, executes no other command and sends what is owed to unrecorded destinations |
| `Quorum.ReplyOf` | src/dw_node.c:546-603 | a duplicate or unknown reply changes nothing; a new one is recorded, and the last one resumes behind the context |
| `Quorum.WhileInContext` | src/dw_node.c:508-603 | in every history, the mask is the set of destinations heard, mask size plus replies left is n_ack, nothing was executed since the context was entered, and each round went to those not heard by then |
| `Quorum.MovesPast` | src/dw_node.c:572-599 | the request leaves the context exactly when the n_ack-th distinct destination replies, and executes from the commands behind it on |
| `Quorum.GivesUp` | src/dw_node.c:1014-1031 | a timeout sends another round exactly while a retry is left, and otherwise the request goes on on_fail_skip contexts further on with status TIMEOUT, or is dropped |
| `Quorum.TimeoutSkips` | src/dw_node.c:1019-1031 | on any tree, a failed request goes on at the on_fail_skip-th following item; beyond the items it ends without a reply; with 0 it is dropped with status TIMEOUT |
| `Quorum.FailingIn` | src/dw_node.c:1022-1024 | the commands reached behind the failed context |
| `Quorum.LeftAt` | src/dw_node.c:508-603 | every history that completes the context or uses up its retries leaves it at one point, and nothing later counts |
| `Quorum.NothingAgain` | src/dw_node.c:833-842 | in every history only commands behind the context are executed after it was entered, so no earlier one again |
| `Quorum.OwedTo` | src/dw_node.c:346-362 | a round has one packet for each destination whose bit is clear and none for any other address |
| `Quorum.BoundedSends` | src/dw_node.c:1014-1018 | over any history whatever, a destination is sent to at least once and at most retries + 1 times, any other address never |
| `Quorum.InputsDecrease` | src/dw_node.c:1014-1018 | retries left and replies left go down with every timeout and every new reply |
| `Network.StepSound` | src/dw_node.c:822-958 | every delivery, storage acknowledgement or reply, anywhere in an intact request, uses up work and logs a part of what the tree has left |
| `Network.StepInv` | src/dw_node.c:822-958 | whatever connections were closed, each waiting request has a servable program left, its replies counted right, and each destination was sent exactly its branch program |
| `Network.StepUnhurt` | src/dw_node.c:1101-1155 | when contexts are kept apart, closing the connection of a last reply changes no request of the tree |
| `Network.HangInv` | src/dw_node.c:1107-1155 | giving up requests keeps the invariant |
| `Network.Progress` | src/dw_node.c:822-958 | no intact state short of the reply is stuck |
| `Network.RunSound` | src/dw_node.c:337-603 | in every reachable state of a program that keeps contexts apart the invariant holds and nothing that is needed was closed |
| `Network.DistributedMeaning` | src/dw_node.c:822-958 | if the program keeps contexts apart, then under every interleaving the run is bounded, never stuck before its reply, and the commands executed over the network are a log of the tree semantics |
| `Network.ServeReturns` | src/dw_node.c:821-901 | the return value is 0 exactly when the program suspends before its REPLY |
| `Failures.MeaningExactly` | src/dw_node.c:903-958 | no run of a servable program goes wrong if and only if the program keeps contexts apart |
| `Failures.NotApartFails` | src/dw_node.c:927-929 | otherwise some run is answered with a log that is none of the tree, or is never answered |
| `Failures.HurtServes` | src/dw_node.c:1107-1155 | closing a connection that the resumed program needs gives the request up too early or leaves it waiting |
| `Failures.JamHopeless` | src/dw_node.c:1112-1112 | a request that waits for a destination behind a closed connection is never answered |
| `Failures.MeaningSize` | src/dw_node.c:822-901 | all logs of a program have the same length |
| `Failures.TwiceFails` | src/dw_node.c:1124-1145 | two forwards to one node: the run that answers with an error before the second branch was executed |
| `Programs.FailOverReplies` | src/dw_node.c:1134-1145 | a request that is given up sends its last REPLY, with an error status |
| `Programs.SeveredMsg` | src/dw_node.c:1124-1132 | which requests are given up |
| `Connection.FrameByFrame` | src/connection.c:341-364 | messages cut out of a prefix of a stream of messages are its first messages, in order |
| `Connection.Framing` | src/connection.c:341-364 | they are all of them once the stream has arrived and nothing more can be cut out |
| `Connection.ConnFraming` | src/connection.c:138-168 | the same in every reachable state of a connection, however receives, extractions and removals interleave |
| `Connection.Accounting` | src/connection.c:138-163 | live messages are disjoint, in reverse list order, below the first unprocessed byte; processed bytes are live bytes plus consumed replies |
| `Connection.RefsWithout` | src/connection.c:144-162 | taking a message out moves the pointers of later requests down by its size and no others |
| `Connection.Conn.Recv` | src/connection.c:610-634 | received bytes join the unprocessed ones; messages and requests are untouched |
| `Connection.Conn.PrepareRecvMessage` | src/connection.c:341-364 | hands out a message exactly when a complete one is at the front, and then that one |
| `Connection.Conn.ReqAdd` | src/connection.c:98-112 | the message just handed out becomes that of the newest request |
| `Connection.Conn.MoveCmd` | src/dw_node.c:891-891 | moving the cursor of the k-th request moves the cursor of its own message, and touches no other request and no byte |
| `Connection.Conn.Relocate` | src/connection.c:151-162 | exactly the requests newer than the removed one move, cursor included |
| `Connection.Conn.MoveDown` | src/connection.c:141-150 | the memmove removes the message's bytes and keeps all others, unprocessed bytes included |
| `Connection.Conn.ReqRemove` | src/connection.c:138-168 | removing any request keeps every other message, every cursor inside its message and all unprocessed bytes, and frees the message's bytes |
| `SendBuffer.Sender.PrepareSendMessage` | src/connection.c:335-339 | the place and the room given to the next message |
| `SendBuffer.Sender.StartSend` | src/connection.c:401-408 | the pending size grows by the message's req_size |
| `SendBuffer.Sender.Submit` | src/connection.c:335-414 | what is pending after a message is submitted; in order as long as every submission found the cursor at the start |
| `SendBuffer.Sender.Sent` | src/connection.c:523-532 | a partial send advances the cursor and leaves exactly the unsent suffix pending, and a drained buffer is reset |
| `SendBuffer.Sender.WouldBlock` | src/connection.c:505-510 | a full socket changes the status only |
| `SendBuffer.SendOrder` | src/connection.c:335-339 | a submitted message is queued behind the pending bytes if and only if the cursor is at the start |
| `SendBuffer.LostMessage` | src/connection.c:335-339 | for every other cursor position there is a buffer and a message that is not queued |
| `SendBuffer.LostOnRun` | src/connection.c:335-414 | on a new connection, a message submitted after a partial send of another is not what follows it on the wire |
| `PriorityQueue.SwapUp` | src/priority_queue.c:63-73 | a swap with the parent moves the only heap violation up |
| `PriorityQueue.SwapDown` | src/priority_queue.c:75-85 | a swap with the smaller child moves the only heap violation down |
| `PriorityQueue.Vacated` | src/priority_queue.c:102-112 | putting the last node in a vacated position breaks the order at that position only |
| `PriorityQueue.TopIsLeast` | src/priority_queue.h:26-26 | the key at the root of a heap is least |
| `PriorityQueue.Partition` | src/priority_queue.c:87-124 | handles in the queue and ids on the free stack share out the table, in every reachable state |
| `PriorityQueue.PQueue.constructor` | src/priority_queue.c:4-18 | a new queue is empty with every id free |
| `PriorityQueue.PQueue.SwapNode` | src/priority_queue.c:27-36 | two nodes change heap positions; heap_id stays the inverse of heap[] and no handle changes meaning |
| `PriorityQueue.PQueue.GetChildNode` | src/priority_queue.c:45-57 | the child picked has the least key among the children |
| `PriorityQueue.PQueue.Up` | src/priority_queue.c:63-73 | the node is settled against its parent, contents unchanged |
| `PriorityQueue.PQueue.Down` | src/priority_queue.c:75-85 | heap order is restored, contents unchanged |
| `PriorityQueue.PQueue.Insert` | src/priority_queue.c:87-100 | a fresh handle gets the key and data, all other handles keep theirs |
| `PriorityQueue.PQueue.Unlink` | src/priority_queue.c:103-109 | exactly the given handle leaves the queue and its id becomes free |
| `PriorityQueue.PQueue.Remove` | src/priority_queue.c:102-112 | removal by handle keeps all other handles and the heap, sifting either way, also for the last slot |
| `PriorityQueue.PQueue.Pop` | src/priority_queue.c:114-124 | removes a handle of least key and no other |
| `PriorityQueue.PQueue.Top` | src/priority_queue.h:26-26 | names a handle of least key |
| `StorageWorker.Worker.OnStorage` | src/dw_node.c:1254-1285 | what each command logs; store acknowledgements stay durable and balanced with what waits, and each load is acknowledged directly |
| `StorageWorker.Worker.OnTick` | src/dw_node.c:1233-1253 | after one fsync exactly the stores then waiting are acknowledged and the queue is empty |
| `StorageWorker.Grow` | src/dw_node.c:1242-1250 | an acknowledgement of a store keeps durability when more stores are covered by an fsync than acknowledged |
| `StorageWorker.AcksBounded` | src/dw_node.c:1270-1279 | no request's stores are acknowledged more often than they were issued, to the issuing worker |
| `StorageWorker.AckAfterSync` | src/dw_node.c:778-780 | the k-th acknowledgement of a store that a request gets comes after an fsync that comes after k of its stores |
| `RequestTable.AddChained` | src/connection.c:98-112 | adding keeps all lists well formed, disjoint and strictly decreasing in id |
| `RequestTable.RemoveChained` | src/request.c:17-31 | so does removing at any position |
| `RequestTable.AddHoused` | src/request.c:33-47 | every slot in use stays in the list of its connection, under the id that maps to it |
| `RequestTable.RemoveHoused` | src/request.c:17-31 | removal leaves every other slot in its list |
| `RequestTable.Table.constructor` | src/request.c:8-15 | all slots start unused and all lists empty |
| `RequestTable.Table.ReqGetById` | src/request.h:47-51 | a slot is returned exactly when the allocation is still live, or for id -1 when the last slot is free |
| `RequestTable.GhostRequest` | src/request.h:47-51 | in an empty table the id -1 gives a free slot |
| `RequestTable.Table.ReqAlloc` | src/request.c:33-47 | the next id takes its slot, or is used up when the slot is still taken |
| `RequestTable.Table.ConnReqAdd` | src/connection.c:98-112 | the new request becomes the head of its connection's list, and its id live |
| `RequestTable.Table.ReqUnlink` | src/request.c:17-31 | the neighbours are linked to each other and the slot becomes unused |
| `RequestTable.Table.ConnReqRemove` | src/connection.c:165-167 | exactly that request leaves its list and its id is no longer live |
| `Template.Skip` | src/ccmd.c:33-57 | the loops reach the node that the recursive skip reaches, or NULL |
| `Template.TwoSkipsAgree` | src/ccmd.c:33-57 | on a template without PSKIP and its message both skips reach corresponding positions, for every n that meets no unmatched REPLY |
| `Template.CcmdDump` | src/ccmd.c:60-124 | on success the message decodes to the compiled template and EOM inside its size and nothing beyond it changes; it succeeds whenever there is room for the longest command beyond the template; how far it writes otherwise |
| `Template.SampledFields` | src/ccmd.c:78-109 | the command written for a node has the sampled offset and size, or the sampled size or time, in their fields and the template's bytes elsewhere |
| `Template.CompiledFields` | src/ccmd.c:71-118 | the k-th command of the message carries what was drawn for the k-th node that is written |
| `Template.TakenMeans` | src/ccmd.c:98-100 | which requests a PSKIP with every= and a certain or impossible probability applies to |
| `Template.StraysExactly` | src/ccmd.c:69-116 | a dump writes beyond its message exactly when it reaches a node that fits in the size announced but not behind the header |
| `Template.DumpBeyond` | src/ccmd.c:69-116 | a template of one REPLY and a message of the least size: the dump fails and has changed a byte beyond the message |
| `TemplateTree.TSkipSiblings` | src/ccmd.c:33-57 | ccmd_skip by n lands on the n-th following sibling of a template tree |
| `TemplateTree.TSkipOverrun` | src/ccmd.c:44-49 | a skip by more than the items left meets the closing REPLY and gives NULL |
| `TemplateTree.ExpandGood` | src/ccmd.c:60-124 | the tree of one dump is a well-formed program |
| `TemplateTree.CompiledTree` | src/ccmd.c:60-124 | when taken skips stay in their bodies, the message is tree-shaped, and its tree is the template's with each taken PSKIP dropping its next n items |
| `TemplateTree.TreeExactly` | src/ccmd.c:97-104 | a template compiles to the flat form of some program if and only if no skip that is reached and taken leaves its body |
| `TemplateTree.CutProg` | src/ccmd.c:97-104 | otherwise the message is a proper prefix of a program |
| `TemplateTree.OverrunCuts` | src/ccmd.c:97-104 | nothing is written from a taken skip beyond its body on |
| `EndToEnd.TemplateMeaning` | src/ccmd.c:60-124 | a dumped template whose tree keeps contexts apart, received by a node, makes the network execute a log of that tree, under every interleaving |
| `EndToEnd.TemplateExactly` | src/ccmd.c:60-124 | no run of a dumped template goes wrong if and only if its tree keeps contexts apart |
| `Poll.HalfModHolds` | src/dw_poll.c:128-153 | changing one direction of the select backend is an update or a removal in the map it represents |
| `Poll.SelectStep` | src/dw_poll.c:60-154 | each ONESHOT-free operation keeps the select arrays equal to a plain map |
| `Poll.PollStep` | src/dw_poll.c:89-174 | each ONESHOT-free operation keeps the poll array equal to a plain map |
| `Poll.BackendsAgree` | src/dw_poll.c:60-174 | after any such run both backends hold the same map |
| `Poll.BackendsAgreeFromStart` | src/dw_poll.c:60-174 | the same from new poll sets |
| `Poll.WithdrawnStays` | src/dw_poll.c:155-174 | exactly when a descriptor stays registered although its interest was withdrawn |
| `Poll.ModLasts` | src/dw_poll.c:155-174 | a change keeps the place and the reported events of a descriptor and clears ONESHOT; a new descriptor keeps it |
| `Poll.HalfModLasts` | src/dw_poll.c:128-153 | the same for one direction of the select backend |
| `Poll.AddsAtEnd` | src/dw_poll.c:60-102 | an addition puts the descriptor at the end as it was passed, for the directions asked for |
| `Poll.DrainExact` | src/dw_poll.c:239-286 | draining reports every ready entry once and removes exactly the reported ONESHOT entries |
| `Poll.SelectDrainsBoth` | src/dw_poll.c:241-268 | draining the select backend is draining its readers and then its writers |
| `Poll.ReportedOnce` | src/dw_poll.c:269-286 | in the poll backend no descriptor is reported twice after a wait, whatever is added, changed or removed in between |
| `Poll.ReportsRegistered` | src/dw_poll.c:269-286 | in a ONESHOT-free run every descriptor is reported with the data and interest it is registered with at that time |
| `PollSets.FdArray.Delete` | src/dw_poll.c:27-58 | deletion puts the last entry in the place of the deleted one |
| `PollSets.FdArray.Locate` | src/dw_poll.c:130-132 | the search loops find the first position of a descriptor |
| `PollSets.FdArray.Advance` | src/dw_poll.c:269-286 | the skipping loop reports the next ready entry and deletes it when it is ONESHOT |
| `PollSets.PollSet.Add` | src/dw_poll.c:89-102 | fails exactly when the array is full, and then changes nothing |
| `PollSets.PollSet.Mod` | src/dw_poll.c:155-174 | changes the array as the list-level operation does |
| `PollSets.PollSet.Next` | src/dw_poll.c:269-286 | one call of dw_poll_next: what is returned is an entry of the array, its data included, of which poll() reported something |
| `PollSets.SelectSet.Add` | src/dw_poll.c:78-88 | fails exactly when a needed array is full, and then changes nothing |
| `PollSets.SelectSet.Mod` | src/dw_poll.c:128-154 | changes both arrays as the list-level operation does |
| `PollSets.SelectSet.Next` | src/dw_poll.c:241-268 | one call of dw_poll_next on both arrays and their common cursor: what is returned is a ready entry of its array, its data included |

## Left out

- Sockets, TLS, DPDK, sendfile replies, the epoll backend, threads and signals: only their effects are inputs.
- Deadline arithmetic of insert_timeout and remove_timeout: a timeout is an event that may occur.
- What a request forwards after a FORWARD failed for good (src/dw_node.c:1019-1024 leaves fwd_replies_left as it is),
  and replies that reach a live request after it left their context.
- conn_reset and connection loss; serialize_request, which is never set; src/queue.c; the client and its options;
  src/distrib.c; the proxy; logging.
- The reply mask is the set of its one bits; contexts have at most 31 destinations with distinct addresses.
- Network.DistributedMeaning: forwards go over TCP; contexts wait for all of their destinations, in packets that hold
  their branches; replies are recognised and fit in a buffer; there are no timeouts; and no node serves two requests
  of the tree at once. A reply is routed to the request that forwarded, because the model keeps forwarded requests
  inside it (that the reply carries the id of that request is NodeRequest.ReplyComesBack, and that a live id is found
  is in RequestTable); requests of other trees on the same nodes, which a
  closed connection can hurt as well, are not part of a run.
- Network.StepInv: the order in which one node gives up several requests, and that it stops at the first one with
  retries on a connection, are not modelled; no node has several in the runs considered.
- Node.SingleSends: setting up a connection and its failures (src/dw_node.c:403-470) are not modelled.
- NodeRequest.Request.constructor: the first command lies inside the message, because the code reads its type without
  a check; the message and the packet sizes are no larger than a buffer, as the code asserts.
- NodeRequest.Request.SendBranch: the packet size is no larger than the send buffer, as the code asserts; the send
  buffer is empty, so that message_copy_tail never runs out of space (src/dw_node.c:482-485); the status field of the
  packet is not modelled.
- NodeRequest.Request.ProcessSingleMessage: the cost of COMPUTE and a failing or still sending connection are not
  modelled; executing a command means that it is logged; replies are in normal mode, through an empty send buffer.
- NodeRequest.Request.HandleForwardReply: finding the request by id is RequestTable.Table.ReqGetById.
- Connection.Conn.ReqRemove: the request list is a sequence here; its linked form is proved in RequestTable.
- Connection.Accounting: bytes of consumed forward replies are never reclaimed by the code, and are accounted for as
  such.
- StorageWorker.Worker.OnStorage: the file contents, offsets and a failing lseek are not modelled; the waiting queue
  must be below its capacity, which the code does not check.
- SendBuffer.Sender.Submit: the error returns of the socket (closed or broken connection) are not modelled.
- PollSets.SelectSet.Mod: requires room for a descriptor that it adds, because dw_poll_mod does not check the capacity.
- RequestTable.Table.ReqAlloc: the id counter does not wrap around.
- Template.CcmdDump: template nodes have a known type and n_every of at least 1, as the client builds them; sampled
  values are given with each node.
