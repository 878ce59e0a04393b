# A model of neudc's streaming protocols and algorithms

neudc is a framework of nodes that exchange messages over lossless edges. This project models the parts
of it whose correctness spans several files or needs an argument, and proves what they promise: for
every input, every interleaving and every reachable state. `dafny verify dfyconfig.toml` checks all of it.

## What is modelled

**The voice turn and barge-in.** The VAD node owns turn ids and cancels a turn over a separate control
channel; ASR, LLM, agent tools, TTS and the player keep per-turn buffers. Each node is a class whose
`Process` is proved against a step function (`Vad`, `Asr`, `Llm`, `AgentTool`, `Tts`, `Player`).
`Turns` composes VAD and ASR. `Speech` composes LLM, tools and TTS into a state machine in which a
cancellation can reach any node at any moment; `Conversation` feeds it with what the LLM node really
yields and with what the microphone side really sends.

**Streaming tool markers.** `Markers` writes the two marker patterns out as matchers. `ToolStreaming`
proves that holding back unfinished markers makes chunking invisible; `ToolStreamingLimits` and
`BrokenCalls` say exactly when it does not.

**The error policy** (`ErrorPolicy`): attempts, streaming delivery, and the counters over any sequence
of calls.

**The transport.** `Codec` frames messages with buffers beside them in shared-memory segments.
`Transport` is a state machine over every step of every sender, receiver thread and consumer of a whole
pipeline; `TransportDelivery` and `TransportProgress` say what its runs deliver and that they can always
finish. `Mailbox` is the bounded inbound queue with a consumer that may act between any two queue
operations. `Routing` wires mailboxes, and `Pipeline` shows that what it wires is what `Transport` covers.

**Signal processing and selection.** `Nlms` and `ReferenceBuffers` (echo cancellation), `Metric`,
`ActiveLearning` and `Clusters` (greedy selection in an arbitrary metric space).

**Detector geometry and formats.** `Nms`, `Slices`, `Letterbox`, `GraphLayout` (the worklist behind the
pipeline graph view), `LayoutBound` and `LayoutLimits` (when the bound on its steps does not matter, and
when it does), and `Labels` (the YOLO label text).

`Wrappers`, `Messages`, `Sequences` and `Rounding` are shared by several of these.

### How the outside world enters

Clocks, chat and speech backends, tools, devices and cancellations are inputs: every statement holds for
all of them. The clock is a nondecreasing input. A float is a `real`; square roots are compared through
squares. Python's rounding to even, floor division, negative slices and first-maximum `argmax` are
written out. Character classes, JSON validity, centroids and distances are parameters. A generator
`process()` is what it would yield, how it ends after that and whether closing it raises. The order that
`argsort` returns is any order by non-increasing score.

### Where the code and its documentation differ

The model follows the code. In these cases a lemma says for which inputs the documented behaviour holds:

* A reply is heard differently depending on how it was cut into chunks exactly when its markers nest or
  a call's arguments hold a `]]`, as long as calls do not start inside other markers, tools answer without
  brackets, and calls that hold a `]]` do run (`ToolStreamingLimits.ChunkingFreeExactly`,
  `BrokenCalls.ChunkingFreeWhenWhole`).
* The layered graph layout is the documented longest-path layout whenever the worklist runs empty. Up to
  eight nodes, with no output listed twice, that is exactly when no root reaches a cycle
  (`LayoutBound.SmallExhaustsExactly`). For every larger number of nodes the bound on the steps cuts some
  acyclic graph short (`LayoutLimits.DenseIsCutShort`), and with repeated outputs even one of three nodes
  (`LayoutLimits.BoundMayCutShort`); a bound on the listed edges that rules this out for any size is
  `LayoutBound.LightAcyclicExhausts`.
* `max_det` below 1 still keeps one box (`Nms.LimitRespectedExactly`).
* The slicing detector checks the overlap against the crop size it was given but slices with its model's
  size, so slices can miss part of an image or all of it (`Slices.ConfiguredFitsExactly`,
  `Slices.CoveredExactly`, `Slices.ConfiguredMayMissEverything`).
* Letterboxing with `auto` gives multiples of the stride only if the target is one
  (`Letterbox.MultipleOfStrideExactly`), takes precedence over `scale_fill`, and an image too thin
  cannot be resized at all (`Letterbox.Letterbox`).
* With a shared-memory threshold of zero or less, an empty buffer makes a send fail and leak what it had
  created (`Transport.LeakFreeExactly`).
* A reference buffer of capacity 0 never trims (`ReferenceBuffers.BoundedExactly`).
* The selection guarantee holds for negative uncertainty weights too
  (`ActiveLearning.SelectionIsNearOptimal`).

## Model

| member | source | states |
|---|---|---|
| Vad.VadNode.Process | neudc/core/node/filters/mixins/vad_mixin.py:158-183 | the new state, the forwarded chunk and the cancellations sent are those of the step function; a cancellation is only sent while a later turn is starting |
| Vad.ChunkExactly | neudc/core/node/filters/mixins/vad_mixin.py:158-183 | over every run and in terms of the input chunks alone: a turn is cancelled at a chunk exactly when a speech run begins there after an earlier one, the chunk reaches the barge-in threshold, and the last cancelling chunk is at least a cooldown ago; a microphone chunk is forwarded under the number of its speech run and marked as silence exactly when it is empty or below the energy threshold |
| Vad.CancelsAreStale | neudc/core/node/filters/mixins/vad_mixin.py:172-181 | over every run cancelled turns strictly increase, are older than the current turn, and no chunk of a turn is emitted from its cancellation on |
| Vad.CooldownsApart | neudc/core/node/filters/mixins/vad_mixin.py:175-186 | with a nondecreasing clock, any two cancels are at least as many cooldowns apart as there are cancels between them |
| Vad.CancelsAreRateBounded | neudc/core/node/filters/mixins/vad_mixin.py:175-186 | any stretch of time contains at most floor(span / cooldown) + 1 cancels |
| Asr.AsrNode.Process | neudc/core/node/model/mixins/asr_mixin.py:68-102 | buffering and flushing are those of the step function; a flush happens only at silence, with something buffered, and empties the buffer |
| Turns.OneUtterancePerTurn | neudc/core/node/model/mixins/asr_mixin.py:68-102 | for every input stream, the utterances ASR flushes carry strictly increasing turn ids, each is exactly its turn's speech, and every turn whose speech is over has been flushed; it has the rate of the turn's last speech chunk, and is handed to the backend exactly when it is long enough |
| Turns.TurnSpeechIsOneRun | neudc/core/node/filters/mixins/vad_mixin.py:169-183 | between two speech chunks of a turn there is nothing but speech of that turn |
| Turns.MicrophoneFeedsConversation | neudc/core/node/filters/mixins/vad_mixin.py:169-183 | what VAD and ASR send on is one input per turn, as the reply path assumes |
| Llm.ScriptShape | neudc/core/node/model/mixins/llm_mixin.py:70-97 | all chunks carry the utterance's turn, a chunk is final exactly when it is the last of a completed reply, a completed reply's chunks join to the whole reply, what is passed on is what the backend produced piece by piece, and only silence and white space are ignored |
| Llm.RememberedWhenFinal | neudc/core/node/model/mixins/llm_mixin.py:81-97 | the assistant's words enter the history exactly when the final chunk was given out, and then they are the whole reply; an interrupted or broken reply leaves only the user's words |
| Llm.LlmNode.Process | neudc/core/node/model/mixins/llm_mixin.py:56-87 | pulled any number of times, the generator yields a prefix of that stream and remembers the user's words at once and the assistant's only after a completed reply |
| Markers.MatchLocal | neudc/core/node/processors/mixins/agent_tool_mixin.py:49 | two texts that agree on the characters a call marker covers have the same match and the same call |
| Markers.MatchExactly | neudc/core/node/processors/mixins/agent_tool_mixin.py:49 | the matcher finds a call exactly where the pattern describes one: a head, anything, and the first tail after it |
| AgentTool.AgentToolNode.Process | neudc/core/node/processors/mixins/agent_tool_mixin.py:140-154 | follows the step function; what was let go followed by what is still held is what was held for this turn followed by the new text |
| AgentTool.RunKeepsEnvelopes | neudc/core/node/processors/mixins/agent_tool_mixin.py:140-154 | over any run only the text of a chunk changes |
| AgentTool.RunPrefix | neudc/core/node/processors/mixins/agent_tool_mixin.py:140-154 | what comes out for a chunk does not depend on later chunks |
| AgentTool.RunLosesNothing | neudc/core/node/processors/mixins/agent_tool_mixin.py:140-151 | over any stretch of one turn, whatever its text and whichever chunks are dropped, all that was let go followed by what is still held is what was held at first followed by all that came in |
| Markers.CallNamed | neudc/core/node/processors/mixins/agent_tool_mixin.py:49 | the name of any call a text can hold consists of word characters |
| ToolStreaming.CleanToolsExactly | neudc/core/node/processors/mixins/agent_tool_mixin.py:169-189 | every call a text can hold is replaced by clean text exactly when no registered tool, called with valid JSON, answers or fails with marker brackets; error texts are clean by themselves |
| ToolStreaming.ToolsRunExactly | neudc/core/node/processors/mixins/agent_tool_mixin.py:169-189 | a tool runs exactly when it is registered and its arguments are JSON; its answer replaces the call, and everything else is replaced by an error text |
| ToolStreaming.HoldBackIsSafe | neudc/core/node/processors/mixins/agent_tool_mixin.py:58-69 | in a text in which no marker opens inside one that is resolved or removed, the node only lets text go up to a place that cuts none of those markers of the whole text |
| ToolStreaming.HoldBackIsNeeded | neudc/core/node/processors/mixins/agent_tool_mixin.py:58-69 | and it lets go of as much as it can: wherever else it might cut what it holds back, the reply may go on so that the cut is in the middle of a marker |
| ToolStreaming.DirectCut | neudc/core/node/processors/mixins/agent_tool_mixin.py:156-167 | reading a tidy text, in which every call is a marker of its own, is reading what is before such a place, then what is after it, with the calls made before |
| ToolStreaming.ResolveTextIsDirect | neudc/core/node/processors/mixins/agent_tool_mixin.py:156-167 | for a tidy text, substituting calls and then stripping leftovers equals one left-to-right reading in which every closed marker becomes its replacement |
| ToolStreaming.StreamIsDirect | neudc/core/node/processors/mixins/agent_tool_mixin.py:140-167 | over a whole regular reply the joined output and the calls are those of that reading, and nothing stays held |
| ToolStreaming.ChunkingDoesNotMatter | neudc/core/node/processors/mixins/agent_tool_mixin.py:140-167 | any two ways of cutting a regular reply into chunks give the same text, the same calls in the same order and the same final state |
| ToolStreamingLimits.NestingIsHeard | neudc/core/node/processors/mixins/agent_tool_mixin.py:55-69 | for every tidy text in which a marker opens inside one that is resolved or removed, with or without calls, some way of cutting it changes what is heard or which calls run |
| ToolStreamingLimits.ChunkingFreeExactly | neudc/core/node/processors/mixins/agent_tool_mixin.py:55-69 | for a tidy text, with calls or without and with or without tools on offer, text and calls are independent of the chunking exactly when no marker opens inside one that is resolved or removed |
| ToolStreamingLimits.AskedOnce | neudc/core/node/processors/mixins/agent_tool_mixin.py:140-189 | a reply that holds a call: however it is cut, the tool runs once and its answer is heard |
| BrokenCalls.InnerCall | neudc/core/node/processors/mixins/agent_tool_mixin.py:49 | a call that starts after the first `]]` within another one ends where that one ends, with shorter arguments |
| BrokenCalls.BrokenIsHeard | neudc/core/node/processors/mixins/agent_tool_mixin.py:58-69 | a call that runs and whose arguments hold a `]]` is always heard: cut right after it, the reply makes other calls |
| BrokenCalls.ChunkingFreeWhenWhole | neudc/core/node/processors/mixins/agent_tool_mixin.py:49-69 | so when calls that hold a `]]` run, text and calls are independent of the chunking exactly when nothing rewritten nests and no call holds a `]]` |
| Tts.TtsNode.Process | neudc/core/node/model/mixins/tts_mixin.py:80-98 | follows the step function; the backend is called only for a final chunk, with its turn and a text that is not empty |
| Speech.NextKeeps | neudc/core/base/base_node.py:183-195 | every event (a cancellation at any node, a pull of the LLM's stream, a message taken by the tools or by TTS) keeps the invariant tying every queue and buffer to the replies |
| Speech.CancelledStaysSilent | neudc/core/base/base_node.py:183-195 | over every run, once a turn's cancellation has reached a node nothing more of that turn comes out of it, not even the rest of a reply it is in the middle of |
| Speech.CancelledIsNotSpoken | neudc/core/base/base_node.py:183-195 | a turn cancelled at any node before its last chunk has passed that node is never spoken |
| Speech.ComesToRest | neudc/core/policy/error_policy.py:266-286 | no run gets stuck: from every state the nodes can finish without any further cancellation |
| Speech.RunsExist | neudc/core/base/base_node.py:245-254 | no run gets stuck: every sequence of events has a run |
| Speech.SpeechIsAllOrNothing | neudc/core/node/model/mixins/tts_mixin.py:80-98 | at every moment of every run each turn has been spoken at most once, in turn order, and what was spoken is exactly the turn's complete resolved reply |
| Speech.UncancelledTurnsAreSpoken | neudc/core/node/model/mixins/tts_mixin.py:80-98 | once a run has come to rest, a turn cancelled nowhere whose reply completed has been spoken exactly when its speech is not empty |
| Speech.SpokenExactly | neudc/core/node/model/mixins/tts_mixin.py:80-98 | at rest, a turn with a complete reply has been spoken exactly when no cancellation reached a node before the turn had passed it and its speech is not empty |
| Conversation.LlmFeedsSpeech | neudc/core/node/model/mixins/llm_mixin.py:81-97 | whatever the backend answers, the LLM node's streams have the shape the speech results rest on |
| Conversation.ReplyIsChunks | neudc/core/node/model/mixins/llm_mixin.py:81-97 | a completed reply is its whole text cut into chunks of which the last is final |
| Conversation.SpokenIsTheWholeReply | neudc/core/node/model/mixins/tts_mixin.py:80-98 | in every run, what is spoken of a turn whose reply is regular is the backend's whole reply with its tool calls resolved as if it had come in one piece, whatever the replies of other turns |
| Player.BlocksArePrefix | neudc/core/node/broadcast/audio_player.py:189-194 | the first n blocks of a chunk are a prefix of its samples made of whole blocks, or all of it |
| Player.BlockFrames | neudc/core/node/broadcast/audio_player.py:189 | a block lasts no longer than the check interval, or is a single sample, and is less than one sample short of it |
| Player.LateIsShort | neudc/core/node/broadcast/audio_player.py:189-196 | what is written of a turn after its cancellation is recorded is at most one check interval of sound, or a single sample, across all its chunks |
| Player.PlayerNode.PlayBlock | neudc/core/node/broadcast/audio_player.py:194-205 | one block is written and its reference copy sent; the at-most-one-late-write invariant is kept |
| Player.PlayerNode.Handle | neudc/core/node/broadcast/audio_player.py:186-205 | with cancellations arriving anywhere, what is written of a chunk is its first n blocks, none if it was dropped or already cancelled, all of them if nothing interferes; after a turn's cancellation is recorded at most one more block of it is written, and references equal writes |
| Player.PlayerNode.Run | neudc/core/base/base_node.py:160-205 | over any inbox, what is sent as reference and written is, chunk by chunk, its first whole blocks: none of a dropped chunk or a turn cancelled before, all of an uncancelled one whose writes succeed; and after a cancellation at most one check interval of sound of the turn is written, across all its chunks |
| ErrorPolicy.AtMostOneAttemptDelivers | neudc/core/policy/error_policy.py:259-317 | items handed over are a prefix of one attempt's yields, earlier attempts yielded nothing and raised, at most max_retries retries happen, and the message is finished exactly when the items are complete |
| ErrorPolicy.PlainExactly | neudc/core/policy/error_policy.py:204-238 | a plain call finishes exactly when some allowed attempt returns after attempts that raised with no stop in between, and hands that attempt's value back; it gives up exactly when all allowed attempts raise, and is abandoned exactly when a stop is seen in a backoff |
| ErrorPolicy.PlainEndsSomewhere | neudc/core/policy/error_policy.py:204-238 | and with which attempt it ends, after how many retries |
| ErrorPolicy.DrainExactly | neudc/core/policy/error_policy.py:266-297 | one attempt of a generator ends at the first cancellation, end or raising receiver, with exactly the items up to there |
| ErrorPolicy.StreamExactly | neudc/core/policy/error_policy.py:259-317 | a streaming call ends with the first attempt that does not fail before yielding anything, the way that attempt ends; only silent failures are retried, as often as allowed |
| ErrorPolicy.EntryBalances | neudc/core/policy/error_policy.py:204-336 | one call, plain or streaming, is exactly one of processed, dropped and failed, and its errors, retries and dead letters balance |
| ErrorPolicy.AccountingLaw | neudc/core/policy/error_policy.py:204-336 | over any sequence of calls: processed + dropped + failures = calls, errors = retries + give-ups, dead letters = give-ups if there is a sink, and other drops are stops during backoff |
| ErrorPolicy.Policy.GiveUp | neudc/core/policy/error_policy.py:319-336 | counters after giving up, and NodeFailure exactly under `fail` |
| ErrorPolicy.Policy.Execute | neudc/core/policy/error_policy.py:204-238 | the attempt loop hands back, fails and counts as the call that `PlainExactly` characterises |
| ErrorPolicy.Policy.DrainAttempt | neudc/core/policy/error_policy.py:266-297 | how far one attempt's stream gets and why it stops there |
| ErrorPolicy.Policy.ExecuteGenerator | neudc/core/policy/error_policy.py:259-317 | the streaming loop hands over, returns, fails and counts as the call that `StreamExactly` characterises |
| Mailbox.ExactlyOnePlace | neudc/core/communication/mailbox/zmq_mailbox.py:127-190 | under every policy, each arrived message is in exactly one of received, queued, dropped, abandoned and pending |
| Mailbox.ReceiveOk | neudc/core/communication/mailbox/zmq_mailbox.py:270-283 | receiving keeps the partition, the arrival order of received ++ queued, and the bounds |
| Mailbox.PutOk | neudc/core/communication/mailbox/zmq_mailbox.py:144-190 | so does putting, full or not |
| Mailbox.EvictOk | neudc/core/communication/mailbox/zmq_mailbox.py:164-189 | so does evicting the oldest, under the policies that drop |
| Mailbox.Inbox.EnqueueBlock | neudc/core/communication/mailbox/zmq_mailbox.py:144-155 | nothing is dropped: the message ends up queued or received, or given up because the mailbox was stopped; if it is still pending the queue is full |
| Mailbox.Inbox.EnqueueDropOldest | neudc/core/communication/mailbox/zmq_mailbox.py:157-180 | the incoming message always gets in, and at most one message is dropped for it: only if the queue was full, and then the oldest that is not yet received when its turn comes |
| Mailbox.Inbox.EnqueueConflate | neudc/core/communication/mailbox/zmq_mailbox.py:182-190 | the incoming message gets in, at most it is left queued, and the final put never finds the queue full |
| Mailbox.Inbox.OnMessage | neudc/core/communication/mailbox/zmq_mailbox.py:113-142 | one round of the receiver loop under any policy keeps everything, the drop counter equals the number dropped, and only a full queue under `block` leaves the message pending |
| Codec.RefillDiverted | neudc/core/communication/messaging/codec.py:98-128 | taking buffers out of band and putting them back gives the same buffers, whatever the threshold |
| Codec.SplitBySize | neudc/core/communication/messaging/codec.py:102-119 | a buffer goes beside the message exactly when it is at least as large as the threshold |
| Codec.ShmMeansMessage | neudc/core/communication/messaging/codec.py:111-128 | a blob whose segments hold the diverted buffers stands for the message |
| Codec.Segments.CreateSegment | neudc/core/communication/messaging/codec.py:131-137 | a fresh segment holding the bytes; an empty one cannot be created |
| Codec.Segments.ConsumeSegment | neudc/core/communication/messaging/codec.py:140-155 | the bytes are copied out and the segment is gone; a missing one is an error |
| Codec.Segments.Dumps | neudc/core/communication/messaging/codec.py:68-121 | the blob stands for the message, exactly its segments are new and nobody else's change; it fails exactly when an empty buffer is diverted |
| Codec.Segments.Loads | neudc/core/communication/messaging/codec.py:85-128 | the message the blob stood for, and exactly its segments are gone |
| Codec.RoundTrip | neudc/core/communication/messaging/codec.py:68-128 | dump then load gives the message back and leaves the segments as they were |
| Transport.StepKeeps | neudc/core/communication/mailbox/zmq_mailbox.py:244-268 | every step of every process keeps the ownership and delivery invariant |
| Transport.ConsumeKeeps | neudc/core/communication/messaging/codec.py:140-155 | in particular, consuming a segment never fails and disturbs no other sender, wire or loader |
| Transport.PutKeeps | neudc/core/communication/mailbox/zmq_mailbox.py:257-268 | in particular, putting a blob on a wire hands its segments over from the sender |
| Transport.OwnedExactlyOnce | neudc/core/communication/messaging/codec.py:98-155 | over every run each live segment is referred to exactly once, nothing else is referred to, and no segment is opened after it was unlinked |
| Transport.ArrivedIsPrefixOfSent | neudc/core/communication/zero_queue/zero_queue.py:34-37 | on every connection, what arrived is a prefix of what was sent over it, and the rest is on its wire or being loaded |
| Transport.PortsMergeConnections | neudc/core/communication/zero_queue/zero_queue.py:34-37 | what a port has received is, in every state, an interleaving of what arrived over each of its connections |
| Transport.ReceivedInOrder | neudc/core/communication/mailbox/zmq_mailbox.py:270-283 | in every state, what the node received from a port followed by what is queued there is what arrived, in order, less what was dropped, and every arrival is in exactly one of the three places |
| Transport.QuietHasDelivered | neudc/core/communication/zero_queue/zero_queue.py:34-37 | once nothing is under way, what a port has received is an interleaving of everything sent over its connections, each in its own order |
| Transport.QuietHasReceived | neudc/core/communication/mailbox/zmq_mailbox.py:270-283 | and with nothing dropped and the queue empty, the node has received an interleaving of everything sent to it |
| TransportDelivery.SendsEverything | neudc/core/communication/mailbox/zmq_mailbox.py:244-268 | in every state each publisher of a node has put on its connections exactly the messages the node was given to send, in order, up to the one under way |
| TransportDelivery.EverySendIsReceived | neudc/core/communication/mailbox/zmq_mailbox.py:244-283 | at rest with everything read and nothing dropped, every message a node was given to send has been put on one connection of each of its publishers and received at its end, in order per connection |
| TransportProgress.ComesToRest | neudc/core/communication/mailbox/zmq_mailbox.py:113-120 | from every state of every run the processes can finish without sending or dropping anything more, to rest with all queues read |
| Transport.QuietLeavesNoSegment | neudc/core/communication/messaging/codec.py:25-39 | once nothing is under way no segment is left, however many queued messages were dropped |
| Transport.EmptyBufferLeaks | neudc/core/communication/messaging/codec.py:102-119 | with a threshold of zero or less there is a run that leaks |
| Transport.LeakFreeExactly | neudc/core/communication/messaging/codec.py:60-119 | no run leaks exactly when the threshold is positive or no sender uses shared memory |
| Routing.ConnectAllSpec | neudc/core/communication/zero_queue/zero_pub.py:46-72 | no port is connected twice, and the ports connected are those asked for |
| Routing.ZeroQueuePub.Open | neudc/core/communication/zero_queue/zero_pub.py:46-53 | fails exactly when there is neither a list of ports nor a port; otherwise the publisher is connected to exactly the listed ports, or to the one port, each once |
| Routing.ZeroQueuePub.DisconnectAdditional | neudc/core/communication/zero_queue/zero_pub.py:74-89 | removes exactly that port, and refuses an unknown or the last one |
| Routing.PublishersSpec | neudc/core/communication/mailbox/zmq_mailbox.py:285-305 | however often a target is listed there is one publisher to it, connected once to each replica |
| Routing.ControlPublishersSpec | neudc/core/communication/mailbox/zmq_mailbox.py:335-347 | control publishers reach every replica of every listed target and nothing else |
| Routing.ControlPublishersCount | neudc/core/communication/mailbox/zmq_mailbox.py:345-346 | a control target listed several times gets as many publishers to each of its replicas |
| Routing.ReplicasAre | neudc/core/communication/messaging/routing_factory.py:54-79 | a configured node gets as many replicas as its last entry asks for, and at least one |
| Routing.RoutingFactory.CreateReplicaMailboxes | neudc/core/communication/messaging/routing_factory.py:54-79 | every configured id gets its replicas, at least one, and no two mailboxes listen on the same data port |
| Routing.RoutingFactory.WireOutputs | neudc/core/communication/messaging/routing_factory.py:81-116 | wires as specified, or stops at a target that is not configured and names it |
| Routing.RoutingFactory.CreateMailboxes | neudc/core/communication/messaging/routing_factory.py:40-52 | succeeds exactly when every listed target is configured, and then every replica reaches exactly its listed targets, data and control |
| Routing.WireNodesDefined | neudc/core/communication/messaging/routing_factory.py:111-116 | wiring succeeds exactly when every listed target is configured |
| Routing.WireNodesSpec | neudc/core/communication/messaging/routing_factory.py:81-108 | after the nested loops every mailbox carries exactly what its id lists |
| Routing.SinglePublisherExactly | neudc/core/communication/mailbox/zmq_mailbox.py:257 | a mailbox has a single publisher exactly when its node lists one distinct target |
| Pipeline.FactoryNetIsCovered | neudc/core/communication/messaging/routing_factory.py:81-91 | in the net of a routed configuration a node uses shared memory exactly when it lists one distinct target, and each publisher has one connection to each replica of its target |
| Pipeline.NetIsWired | neudc/core/communication/messaging/routing_factory.py:81-91 | all connections of such a net exist and lead to existing ports |
| Pipeline.NetExists | neudc/core/communication/messaging/routing_factory.py:40-52 | whatever mailboxes the factory has wired, there is such a net with exactly their replicas, publishers and connections |
| Pipeline.PipelineLeaksNothing | neudc/core/communication/mailbox/zmq_mailbox.py:257-268 | in any configured pipeline no segment is opened after it is gone; at rest none is left, and what came in at every port, and was received there if nothing was dropped and the queue is empty, is exactly what was sent to it, in order per connection |
| Pipeline.NetConnects | neudc/core/communication/messaging/routing_factory.py:81-91 | every publisher of a routed configuration has a connection, and no connection is shared |
| Pipeline.PipelineDelivers | neudc/core/communication/mailbox/zmq_mailbox.py:244-283 | whatever a configured pipeline has been doing, if nothing was dropped from a queue it can finish, and then every message has been received by exactly one replica of each target, with no segment left |
| Nlms.AddInPlace | neudc/core/node/filters/mixins/aec.py:64 | the in-place weight update is a scaled vector sum |
| Nlms.NlmsProcess | neudc/core/node/filters/mixins/aec.py:56-66 | the in-place loop leaves the weights and returns the errors of the specified filter |
| Nlms.PredictionIsEcho | neudc/core/node/filters/mixins/aec.py:60-61 | the prediction of a sample is the echo of a room with the weights as response: tap k weighs the sample played k earlier |
| Nlms.OutIsResidual | neudc/core/node/filters/mixins/aec.py:60-65 | sample by sample, what comes out is the microphone signal less the echo predicted by the weights of that moment |
| Nlms.RateExactly | neudc/core/node/filters/mixins/aec.py:63-64 | the update is the error times the step over the window's energy and epsilon |
| Nlms.FrozenExactly | neudc/core/node/filters/mixins/aec.py:147-160 | adaptation stops exactly when some weight is not zero, the prediction's root-mean-square is above the floor, and that of the residual is more than the ratio times it |
| Nlms.ConvergedIsSilent | neudc/core/node/filters/mixins/aec.py:56-66 | a filter equal to the room leaves nothing of a pure echo and stays as it is |
| Nlms.ConvergedIsNeverFrozen | neudc/core/node/filters/mixins/aec.py:147-160 | and is never frozen |
| Nlms.SampleBalance | neudc/core/node/filters/mixins/aec.py:58-65 | one sample of pure echo shrinks the squared weight error by at least step (2 - step) e^2 / (norm + epsilon) |
| Nlms.BlockBalance | neudc/core/node/filters/mixins/aec.py:56-66 | the same summed over a block |
| Nlms.EnergyBound | neudc/core/node/filters/mixins/aec.py:147-162 | over any blocks and freezing decisions, the final squared weight error plus everything gained is at most the initial one |
| Nlms.WeightErrorNeverGrows | neudc/core/node/filters/mixins/aec.py:147-162 | with a step between 0 and 2 the weight error never grows |
| Nlms.FrozenBlock | neudc/core/node/filters/mixins/aec.py:99-101 | a frozen block leaves the weights alone and still subtracts the current prediction |
| Nlms.AdaptiveEchoCanceller.Process | neudc/core/node/filters/mixins/aec.py:140-162 | rejects a wrong reference length; a frozen block leaves the weights alone and subtracts the current prediction, any other is filtered and adapted with the configured step |
| ReferenceBuffers.KeptIsIncremental | neudc/core/node/filters/mixins/aec.py:190-193 | trimming after every push keeps the same as trimming once at the end |
| ReferenceBuffers.BoundedExactly | neudc/core/node/filters/mixins/aec.py:191-193 | the buffer stays within its capacity exactly when that is positive or nothing came |
| ReferenceBuffers.KeptIsLatest | neudc/core/node/filters/mixins/aec.py:191-193 | with a positive capacity it holds the last samples pushed, as many as fit |
| ReferenceBuffers.ReferenceBuffer.Push | neudc/core/node/filters/mixins/aec.py:186-194 | the buffer is what its capacity keeps of everything pushed |
| ReferenceBuffers.ReferenceBuffer.Window | neudc/core/node/filters/mixins/aec.py:200-205 | the last samples ever pushed, exactly when enough are kept |
| ReferenceBuffers.ReferenceBuffer.IsActive | neudc/core/node/filters/mixins/aec.py:196-198 | active exactly when something was pushed and the last push is recent enough |
| Metric.GreedyCovers | neudc/core/node/model/mixins/active_learning_mixin.py:129-143 | if any centres, as many as the picks and anywhere in the space, cover the points within r, then greedy picks cover them within 2 r plus the slack |
| ActiveLearning.NormaliseSpread | neudc/core/node/model/mixins/active_learning_mixin.py:129-130 | in both cases of the normalisation uncertainties differ by at most 1 and keep their ranking |
| ActiveLearning.NormaliseExactly | neudc/core/node/model/mixins/active_learning_mixin.py:129-130 | the least value becomes 0 and the greatest 1, proportions kept, if they are more than 1e-8 apart; otherwise nothing changes |
| ActiveLearning.AggregateSum | neudc/core/node/model/mixins/active_learning_mixin.py:116-121 | under `sum`, what each confidence lacks to 1 added up, and 1 without boxes |
| ActiveLearning.AggregateAvg | neudc/core/node/model/mixins/active_learning_mixin.py:122-123 | under `avg`, the mean of these |
| ActiveLearning.AggregateMax | neudc/core/node/model/mixins/active_learning_mixin.py:124-125 | under `max`, the largest of them |
| ActiveLearning.AggregateMonotone | neudc/core/node/model/mixins/active_learning_mixin.py:116-125 | lowering confidences never lowers the uncertainty |
| ActiveLearning.Uncertainties | neudc/core/node/model/mixins/active_learning_mixin.py:112-130 | one normalised number per frame; an unknown strategy fails exactly when some frame has boxes |
| ActiveLearning.ArgMax | neudc/core/node/model/mixins/active_learning_mixin.py:141-142 | the first maximum among the frames not taken |
| ActiveLearning.ActiveSelect | neudc/core/node/model/mixins/active_learning_mixin.py:104-146 | as many frames as asked and available, each the first best of those left; nothing for a count of zero or less |
| ActiveLearning.SelectionDistinct | neudc/core/node/model/mixins/active_learning_mixin.py:141 | no frame is picked twice |
| ActiveLearning.PickBeatsOthers | neudc/core/node/model/mixins/active_learning_mixin.py:135-143 | each pick beats every frame not picked before in distance to the nearest pick plus weight times uncertainty; among equals it is the first |
| ActiveLearning.SelectionIsNearOptimal | neudc/core/node/model/mixins/active_learning_mixin.py:129-143 | every frame is within 2 OPT + the absolute weight of a selected one, against every choice of as many centres |
| ActiveLearning.FirstIsMostUncertain | neudc/core/node/model/mixins/active_learning_mixin.py:136-142 | with a positive weight the first frame selected is a most uncertain one |
| ActiveLearning.SelectionUnique | neudc/core/node/model/mixins/active_learning_mixin.py:129-143 | the selection is determined by its inputs |
| Clusters.NextExtreme | neudc/core/node/model/proc_embedding_inference.py:123-132 | the scan finds an unselected member farthest from the selected ones, or none exactly when all are selected |
| Clusters.PickCluster | neudc/core/node/model/proc_embedding_inference.py:103-135 | the picks start with a medoid, are distinct, each farthest from those before, and as many as configured; without extremes there is a second one exactly when some member is not at the centroid and some not at the medoid; a lone pick has everything within twice the closeness bound |
| Clusters.ClusterAndSelect | neudc/core/node/model/proc_embedding_inference.py:92-143 | noise is kept, each cluster keeps a greedy choice of the right size that starts with a medoid, and a frame is dropped exactly when it was dropped before or is not picked |
| Clusters.ClusterIsNearOptimal | neudc/core/node/model/proc_embedding_inference.py:107-135 | every member of a cluster is within 2 OPT of a picked one, against every choice of at most as many centres |
| Nms.IouDefined | neudc/nn/models/op.py:252-265 | between boxes of positive area the overlap is a number in [0, 1] and survival means being below the threshold |
| Nms.IouExactly | neudc/nn/models/op.py:252-265 | the overlap is the area of what two boxes have in common, whatever box describes that, over the area of both together |
| Nms.IouOfSpecialCases | neudc/nn/models/op.py:252-265 | a box inside another overlaps it by the ratio of the areas, identical boxes by 1, boxes without a common point by 0 |
| Nms.FlatBoxesSuppress | neudc/nn/models/op.py:264-302 | boxes without area suppress each other whatever the threshold |
| Nms.ApplyNms | neudc/nn/models/op.py:289-308 | the loop terminates with the prefix of the unlimited run that the limit allows |
| Nms.UnlimitedIsScan | neudc/nn/models/op.py:292-304 | shrinking the candidate list gives the same as scanning the boxes in order and keeping each that no kept one suppresses |
| Nms.KeptExactly | neudc/nn/models/op.py:292-304 | a box is kept exactly when no kept box of an earlier rank suppresses it |
| Nms.KeptSpec | neudc/nn/models/op.py:289-308 | the result is distinct, by non-increasing score, without suppression in either direction, and within the limit |
| Nms.DroppedIsSuppressed | neudc/nn/models/op.py:302-304 | without the limit, a dropped box is suppressed by a kept one of at least its score |
| Nms.PositiveAreas | neudc/nn/models/op.py:252-304 | the same in terms of overlaps: kept ones are below the threshold, a dropped one is at or above it with a kept one |
| Nms.LimitRespectedExactly | neudc/nn/models/op.py:306-308 | the limit is respected exactly when it is positive or there is nothing to keep |
| Nms.RerunKeepsAll | neudc/nn/models/op.py:289-308 | running again on the kept boxes keeps them all |
| Slices.StartsTile | neudc/nn/models/op.py:83-98 | along an axis the slices have full size, lie inside, increase, overlap enough and cover every pixel |
| Slices.StartsFewest | neudc/nn/models/op.py:86-88 | no such tiling has fewer slices |
| Slices.CoveredExactly | neudc/nn/models/op.py:83-98 | for any overlap of at least 0, every pixel is covered exactly when one slice is enough, the overlap is smaller than the slice, or the image is one pixel larger than the slice |
| Slices.CalculateSlices | neudc/nn/models/op.py:77-106 | the grid of both axes, row by row; a division by zero exactly when an axis needs more than one slice and the overlap equals the slice |
| Slices.GridCount | neudc/nn/models/op.py:97-106 | the grid has as many slices as rows times columns, so as few as both axes allow |
| Slices.GridAt | neudc/nn/models/op.py:97-104 | slice j of row i comes after all rows above it and j slices |
| Slices.SlicesTileImage | neudc/nn/models/op.py:97-106 | every pixel of the image lies in some slice |
| Slices.SlicesFit | neudc/nn/models/op.py:100-104 | every slice lies in the image with exactly the size of a crop, or of the image where that is smaller |
| Slices.ConfiguredFitsExactly | neudc/nn/models/det/sahi.py:58-74 | the configured overlap fits the configured crop exactly when it was rejected or fits the model as well |
| Slices.ConfiguredMayMissEverything | neudc/nn/models/det/sahi.py:58-74 | a configuration that passes the check and leaves an image without slices |
| Letterbox.Letterbox | neudc/nn/models/op.py:206-235 | without `auto` the padded size is exactly the target, with it the least that is congruent to the target modulo the stride; borders are centred up to a pixel; it fails exactly for too thin images |
| Letterbox.MultipleOfStrideExactly | neudc/nn/models/op.py:163-165 | the padded sides are multiples of the stride exactly when the target's are |
| Letterbox.UnpadWithin | neudc/nn/models/op.py:154-158 | the resized image is never larger than the target, and empty exactly when a side is too thin |
| Letterbox.ScaleIsLargest | neudc/nn/models/op.py:154-156 | the scale is the largest at which both sides fit the target, and at most 1 unless enlarging is allowed |
| Letterbox.UnpadIsScaled | neudc/nn/models/op.py:158-170 | unless stretched, the resized image is the image at that scale, to the nearest pixel |
| Rounding.SplitGap | neudc/nn/models/op.py:222-223 | rounding half a gap a little below and a little above splits it into parts that add up and differ by at most one |
| Rounding.RoundTies | neudc/nn/models/op.py:158 | halfway between two integers it is the even one |
| Letterbox.AxisRoundTrip | neudc/nn/models/op.py:343-360 | decoding a coordinate mapped through the rounded resize and border misses it by at most 1/r |
| Letterbox.BoxRoundTrip | neudc/nn/models/op.py:343-362 | letterbox, ideal prediction, decode: every corner comes back within 1/r, and exactly when the image was stretched |
| Letterbox.DecodeClass | neudc/nn/models/op.py:346-362 | every confident prediction of one class is decoded, and nothing else, once each |
| Letterbox.DecodeOutput | neudc/nn/models/op.py:346-364 | the same over all classes, class by class |
| GraphLayout.AssignLayers | frontend/src/lib/graphLayout.ts:28-51 | the two nested loops compute the specified worklist run |
| GraphLayout.LayoutNodes | frontend/src/lib/graphLayout.ts:52-61 | one position per node in order: x by its layer, y by how many earlier nodes share that layer |
| GraphLayout.PlacesDiffer | frontend/src/lib/graphLayout.ts:55-60 | no two nodes are at the same place, whatever the layers |
| GraphLayout.RunKeeps | frontend/src/lib/graphLayout.ts:38-51 | every visit keeps that layers are attained by paths and that settled nodes have all their edges going right |
| GraphLayout.GraphExactly | frontend/src/lib/graphLayout.ts:21-30 | there is an edge from a node to each of its outputs that is a node, and the roots are the nodes no edge leads to |
| GraphLayout.BoundIsExact | frontend/src/lib/graphLayout.ts:34-51 | the loop ends when the queue is read or n * n + n edges have been looked at, and not before |
| GraphLayout.LayersAreLongestPaths | frontend/src/lib/graphLayout.ts:16-20 | if the queue runs empty, layers are exactly the longest distances from a root, and unreached nodes are in layer 0 |
| GraphLayout.EdgesGoRight | frontend/src/lib/graphLayout.ts:16-20 | then every reached edge goes strictly right |
| GraphLayout.CycleNeverExhausts | frontend/src/lib/graphLayout.ts:34-36 | with a reachable cycle it is always the bound that stops the loop |
| LayoutBound.LightAcyclicExhausts | frontend/src/lib/graphLayout.ts:34-51 | a graph acyclic from its roots exhausts the queue if its edges, each counted as often as the rank of its source, are fewer than the bound |
| LayoutBound.SparseAcyclicExhausts | frontend/src/lib/graphLayout.ts:34-51 | in particular with at most two more edges than nodes |
| LayoutBound.SparseAcyclicLayout | frontend/src/lib/graphLayout.ts:16-51 | so its layout is the documented one |
| LayoutBound.SmallExhaustsExactly | frontend/src/lib/graphLayout.ts:34-51 | with at most eight distinct nodes and no output listed twice, the queue runs empty exactly when no root reaches a cycle |
| LayoutBound.SmallAcyclicLayout | frontend/src/lib/graphLayout.ts:16-51 | so every such graph without a reachable cycle gets the documented layout |
| LayoutLimits.BoundMayCutShort | frontend/src/lib/graphLayout.ts:34-51 | an acyclic graph of three nodes, one output listed twelve times, whose layout the bound cuts short |
| LayoutLimits.DenseIsCutShort | frontend/src/lib/graphLayout.ts:34-51 | for every number of nodes above eight, an acyclic graph without repeated outputs whose last node is put further left than its longest path |
| Labels.ParseFormatNum | neudc/service/api/labels.py:89-98 | parsing a printed number gives its six-decimal rounding, sign included |
| Labels.ParseWhole | neudc/service/api/labels.py:89-92 | a number without a point is read as what it says |
| Labels.RoundedNear | neudc/service/api/labels.py:98 | six decimals are off by at most half a millionth, and rounding again changes nothing |
| Labels.SaveLabels | neudc/core/node/processors/mixins/create_dataset_mixin.py:116-129 | the file as first saved, line after line, from the detected corners; empty without boxes, and a division by zero exactly when there are boxes and the image has no height or no width |
| Labels.SavedDetectionsReturn | neudc/core/node/processors/mixins/create_dataset_mixin.py:121-127 | what is read from a saved file are the detections in order, with their classes, every corner within three quarters of a millionth of the image's side |
| Labels.WritersAgree | neudc/service/api/labels.py:97-99 | both writers of the format produce the same text |
| Labels.ReadBoxes | neudc/service/api/labels.py:84-94 | the boxes of all lines in order, blank lines skipped, or nothing if a line cannot be read |
| Labels.ReadAfterWrite | neudc/service/api/labels.py:84-99 | reading what either writer wrote gives every box back in order, rounded to six decimals |
| Labels.WriteAfterRead | neudc/service/api/labels.py:84-99 | writing what was read reproduces the text |
| Labels.TextRoundTrip | neudc/service/api/labels.py:84-99 | both together: same number, order and classes, coordinates within half a millionth, and the same text again |

## Left out

* ZeroMQ sockets, ports, high-water marks, LINGER losses at shutdown and OS processes: an edge is a lossless FIFO, as zero_queue.py states.
* The hand-off of a mailbox between processes by pickling; the rebuilt queue's capacity comes from the queue's size at that moment, so no result relies on it.
* Pickling itself: a message is a head and buffers that can be taken out of band and put back. The unknown-tag error and the resource tracker are not modelled.
* Creating a segment and copying its bytes in is one step of `Transport`, since nobody else knows its name before the blob is sent.
* Timer reminders that interleave with a streaming reply, several inputs for one turn, `retry` on the stateful LLM and TTS nodes, and tools raising anything but ToolError or TypeError: `Speech` assumes the default `skip` policy and one input per turn.
* Generators and backends that never end: a stream has finitely many items.
* Float rounding, float32 casts and fast-math: arithmetic is exact.
* Model inference, image resizing itself, resampling, DBSCAN, JSON parsing and the exact Unicode character classes.
* Backoff delays, logging, metrics, health flags and node life cycle; the autoscaler's later connections to a running publisher.
* The merge buffer of fixed size in the slicing detector, and the early return inside a batch of the embedding node.
* The collection of frames per directory before active selection, and of embeddings per source before clustering.
* File system access, path checks and the review manifest of the label service; numbers with an exponent, a plus sign, underscores, or a point with nothing before or after it are unreadable in `Labels`, where Python accepts them.
- Routing.RoutingFactory.CreateMailboxes: mailboxes and publishers are values in the factory's map, so sharing one mailbox object between owners is not captured; data and control wiring are one method with a channel parameter.
- Mailbox.Inbox.EnqueueBlock: the wait for space is observed for a given number of timeouts, because it may last forever; the message is still pending if it has not ended by then.
- Letterbox.DecodeOutput: within one class the order of the detections is not stated, because nothing downstream relies on it.
- Clusters.ClusterAndSelect: the loop over labels takes them in any order, where the code sorts them.
- Player.PlayerNode.Handle: a failing write ends the chunk, as under the default `skip` policy; `retry`, which would play the chunk again, is not modelled.
- ToolStreaming.ChunkingDoesNotMatter: the condition on the text is sufficient; the exact one, in `BrokenCalls.ChunkingFreeWhenWhole`, does not cover a call that starts inside another marker, a tool that answers with brackets, or a call with a `]]` in its arguments that only yields an error, because there the output may agree by accident.
- LayoutBound.LightAcyclicExhausts: the condition is sufficient, not necessary; a denser graph of more than eight nodes may or may not reach the step bound, depending on the order in which its edges are listed.
- LayoutBound.SmallExhaustsExactly: node ids are distinct, as the configuration check demands (neudc/core/utils/config_schema.py:80-84).
