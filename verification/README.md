# ts-cli: a verified model

ts-cli is a native TeamSpeak client. This project models the parts of it that
decide whether commands, channels and voice come out right, and proves what
they promise, for every input, every run and every interleaving.

The code that computes is modelled by functions, the code that changes things
in place by classes and methods with loops. Each such method is proved against
a function of the old state (`ReceiveStep`, `PullStep`, `MoveStep`, ...); the
theorems are about those functions over whole runs. A C++ exception is a result
(`Err`, `Some(error)`). Byte, 16-bit, 32-bit and 64-bit limits are written out.

| file | models |
|---|---|
| `PacketSequence.dfy` | positions of packets, and recovering them from 16 bits |
| `CommandReceiveWindow.dfy`, `CommandStream.dfy` | the receiving end of the reliable command stream |
| `CommandMessage.dfy`, `CommandFragmenter.dfy` | commands as messages of packets, plain or compressed; and how the client cuts its own |
| `ReliableCommandQueue.dfy`, `SessionTransport.dfy`, `ReliableSession.dfy` | the sending end: retransmission, acknowledgement, keepalive; and from sender to receiver |
| `KeepaliveHistory.dfy` | exactly when a session pings, told from its events |
| `ClosedLoop.dfy`, `AckLateness.dfy` | both ends with acknowledgements between them, and exactly how late these may be |
| `QuickLz.dfy` | the QuickLZ level-1 decoder against a simple reference decoder |
| `QuickLzFormat.dfy`, `QuickLzAcceptance.dfy` | the format from the writing side, and that the decoder accepts exactly that |
| `CommandCodec.dfy` | the text of commands: writer and parser |
| `ChannelLinks.dfy`, `ChannelForest.dfy`, `ChannelStore.dfy` | channels linked by predecessor, as a rooted ordered forest |
| `VoiceJitterBuffer.dfy`, `JitterReference.dfy` | reordering of voice frames, and a reference over positions that do not wrap |
| `SpscRing.dfy`, `PlaybackRefill.dfy`, `TransmitProtocol.dfy`, `TransmitHistory.dfy` | hand-off between the audio, network and user interface threads |
| `LossTracker.dfy` | accounting of lost packets |
| `HashCash.dfy`, `IdentityStore.dfy` | the search behind security levels |
| `DerKey.dfy`, `DerAcceptance.dfy` | the public key format, and exactly what the reader accepts |
| `Basics.dfy` | shared value types |

`dafny verify dfyconfig.toml` checks all of it.

What is abstract: encryption is reduced to "a packet opens only under the
generation it was sealed in"; SHA-1 is an arbitrary function from offsets to
20-byte digests; the clock is a parameter, assumed monotone only where stated;
threads interleave at each atomic access.

## Where a promise does not hold as it stands

- A command whose last word is a bare name ending in a carriage return or line
  feed is accepted by the writer but trimmed by the parser.
  `CommandCodec.RoundTrip` proves that this is the only exception, and
  `CommandCodec.LineEndIsLost` gives an instance.
- `ChannelStore::Move` accepts a new parent that lies below the moved channel
  and so makes a cycle. `ChannelForest.MoveKeepsForest` proves that this is the
  only accepted move that breaks the forest; `ChannelForest.MoveCanMakeACycle`
  gives an instance.
- `ChannelStore::Apply( ChannelCreated )` overwrites a known channel without
  relinking its siblings. `ChannelForest.CreateKeepsForest` says exactly which
  creations, of new and of known channels, keep the forest;
  `ChannelForest.CreateCanBreakALink` gives one that does not. Likewise
  `ChannelForest.RemoveKeepsForest` for removals, with
  `ChannelForest.RemoveCanOrphan`.
- A rewind of the jitter buffer before playback can leave an end marker that was
  ahead half the ids or more away, so that it counts as behind.
  `VoiceJitterBuffers.EndStaysAhead` proves that nothing else does;
  `VoiceJitterBuffers.EndCanFallBehind` gives a run. Buffered frames stay at most
  2048 ids ahead in every run (`VoiceJitterBuffers.EveryRunIsFaithful`).
- Acknowledgements carry 16 bits of a position, so one that is late enough is
  taken for a packet a whole sequence later, which is then never sent again.
  `AckLateness.LatenessLimitIsExact` proves that this can happen if and only if
  packets and acknowledgements, each refused when 32768 positions late, may
  together be late by more than 65536 - 64 - 1024 + 1 = 64449 positions.
  `AckLateness.BeyondTheLimit` builds the failing run for every larger sum, up to
  the 65534 that are not refused.

## Model

| member | source | states |
|---|---|---|
| `PacketSequences.PacketSequence.Advance` | protocol/include/protocol/packet/sequence.hpp:14-28 | the position grows by exactly one across the wrap of the id, and fails without change only at the last 48-bit position |
| `PacketSequences.KeyParts` | protocol/src/packet/sequence.cpp:47-53 | id and generation correspond one to one to positions |
| `PacketSequences.ResolutionRecoversPosition` | protocol/src/packet/sequence.cpp:7-45 | an id is resolved to its true position if and only if that is strictly within half a sequence of the expected one |
| `PacketSequences.ResolutionIsNearest` | protocol/src/packet/sequence.cpp:7-45 | a result is always the nearest position with that id; failure means no position with that id is near |
| `CommandReceiveWindows.FeedStaysInWindow` | protocol/src/reliability/command_receive_window.cpp:9-60 | queued positions always lie in (expected, expected + 64], so the "queue is full" exception is unreachable whatever arrives |
| `CommandReceiveWindows.CommandReceiveWindow.ProcessOrdered` | protocol/src/reliability/command_receive_window.cpp:62-108 | assembly of fragments, decompression and the size limit, with the state left by each failure |
| `CommandReceiveWindows.CommandReceiveWindow.Feed` | protocol/src/reliability/command_receive_window.cpp:9-60 | duplicates, queueing, the drain loop and its termination, and the exact state after an error |
| `CommandStreams.CommandReceiver.ProcessIncomingCommand` | protocol/src/session_transport.cpp:390-407 | resolve, open, acknowledge, feed: the acknowledgement is sent even for duplicates and for packets the window rejects |
| `CommandStreams.TimelyPacketOpens` | protocol/src/session_transport.cpp:390-407 | a packet within reach is resolved to its own generation, so it opens, and is acknowledged |
| `CommandStreams.DistantPacketIsRefused` | protocol/src/session_transport.cpp:390-407 | a packet half a sequence or more from the expected one is never taken for another: it is refused and changes nothing |
| `CommandStreams.PacketBeyondWindow` | protocol/src/reliability/command_receive_window.cpp:23-27 | one further ahead than the window reaches is acknowledged but not kept, and is an error |
| `CommandStreams.StepSettles` | protocol/src/session_transport.cpp:390-407 | one arrival keeps the receiver equal to in-order consumption of the received prefix |
| `CommandStreams.ReceivesInOrder` | protocol/src/reliability/command_receive_window.cpp:9-60 | for every order of arrivals with losses and duplicates: the same commands as in-order consumption of the received prefix, each packet consumed once, the rest queued; it fails only where in-order consumption fails, with the same error |
| `CommandFragmenters.Plan` | protocol/src/packet/command_fragmenter.cpp:11-48 | the loop yields the recursive plan, refusing exactly the commands over the limit |
| `CommandFragmenters.PlanIndex` | protocol/src/packet/command_fragmenter.cpp:26-45 | fragments follow each other without gap or overlap and end exactly at the end of the command |
| `CommandMessages.OneMorePacket` | protocol/src/reliability/command_receive_window.cpp:62-108 | each packet of a message but the last extends the assembly, which remembers whether the first one was marked compressed |
| `CommandMessages.LastPacket` | protocol/src/reliability/command_receive_window.cpp:62-108 | the last packet yields the joined parts, or exactly what they decompress to if the message is a block, and leaves nothing behind; or it raises the decompressor's error and leaves the joined parts |
| `CommandMessages.PacketTooMany` | protocol/src/reliability/command_receive_window.cpp:62-66 | the packet with which the parts exceed the limit is refused and the assembly stays |
| `CommandMessages.CollectedMeaning` | protocol/src/reliability/command_receive_window.cpp:62-108 | the output of several messages is the command of each, or the error of the first that does not decompress |
| `CommandMessages.MessagesInOrder` | protocol/src/reliability/command_receive_window.cpp:62-108 | after any number of packets of a stream of messages, whole or in parts, plain or compressed, exactly the commands of the complete ones have been output, or the first error among them |
| `CommandMessages.MessagesSurviveTheNetwork` | protocol/src/session_transport.cpp:390-407 | well marked messages, plain or compressed, whose packets arrive in any timely order with losses and duplicates, come out as the commands before the first gap; all of them once everything has arrived; the only possible error is the decompressor's own, to the first block received that does not decompress |
| `CommandFragmenters.FragmentsAreAMessage` | protocol/src/packet/command_fragmenter.cpp:11-48 | the packets of a command are a well marked message that is not compressed and stands for exactly the command |
| `CommandFragmenters.FragmentsFit` | protocol/src/packet/command_fragmenter.cpp:11-48 | each is of the new protocol and fits a datagram, all but the last are full, none is empty but that of the empty command |
| `CommandFragmenters.CommandsInOrder` | protocol/src/packet/command_fragmenter.cpp:11-48 | after any number of packets of a stream of commands exactly the complete ones have been output |
| `CommandFragmenters.CommandsSurviveTheNetwork` | protocol/src/packet/command_fragmenter.cpp:11-48 | commands within the limit, cut into packets that arrive in any order with losses and duplicates, come out as the commands before the first gap; all of them, with nothing left over, once everything has arrived; no error is possible |
| `SessionTransports.SessionTransport.SendCommandPacket` | protocol/src/session_transport.cpp:121-139 | a packet goes out at the next position and into the retransmission queue, its id is returned and the first id of the session remembered; or it is refused without going out |
| `SessionTransports.SessionTransport.SendCommand` | protocol/src/session_transport.cpp:109-119 | all fragments in order until one is refused, and the id of the last |
| `SessionTransports.SessionTransport.HandleAck` | protocol/src/session_transport.cpp:231-303 | resolution, the special first acknowledgement, authentication, size, retirement of the named packet, and the expected position of the acknowledgement stream |
| `SessionTransports.SentCommandTells` | protocol/src/session_transport.cpp:109-139 | a command that is sent takes as many positions as it has packets, returns the id of the last, and sets the first id of the session only if there was none; one over the limit is never sent |
| `SessionTransports.AckMeaning` | protocol/src/session_transport.cpp:231-303 | which packet an acknowledgement is for: the very first is for the first command, any other must be authentic and name an id in two bytes, and is otherwise refused without effect |
| `ReliableSessions.CommandIsItsPackets` | protocol/src/session_transport.cpp:109-139 | whatever has happened in a session, sending a command is sending its packets one after the other, refused exactly if one of them is |
| `ReliableSessions.FirstAckIsForTheFirst` | protocol/src/session_transport.cpp:231-303 | in every run the first acknowledgement is for the first packet the session sent |
| `ReliableSessions.NothingIsForgotten` | protocol/src/session_transport.cpp:505-515 | in every run of sends, acknowledgements and timers, a position is in the retransmission queue if and only if it was sent and no later acknowledgement carried its id; every packet went out in its turn; everything on the wire, first or resent, is the packet of its own position |
| `ReliableSessions.WireArrives` | protocol/src/session_transport.cpp:505-515 | every datagram, resent ones included, is received as the packet of the stream at its own position |
| `ReliableSessions.SentCommandsArrive` | protocol/src/session_transport.cpp:109-139 | commands sent as their packets, with acknowledgements and retransmissions anywhere between, are received in order from whatever the network delivers of the wire, resent packets included: the commands before the first gap, and all of them once every position has arrived |
| `ClosedLoops.AckIsRecent` | protocol/src/session_transport.cpp:231-303 | how many positions ago the acknowledged packet can have been sent, from how late packets and acknowledgements are |
| `ClosedLoops.RemovedWasReceived` | protocol/src/session_transport.cpp:231-303 | with a peer that acknowledges as this client does, over every run in which packets and acknowledgements are together late by at most 64449 positions and no acknowledgement is half a sequence ahead, whatever has left the retransmission queue is with the peer |
| `AckLateness.BeyondTheLimit` | protocol/src/session_transport.cpp:231-303 | for every larger lateness there is a run after which a packet has left the retransmission queue that the peer never had |
| `AckLateness.LatenessLimitIsExact` | protocol/src/session_transport.cpp:231-303 | nothing is ever lost this way if and only if the two latenesses, each below half a sequence, sum to at most 64449, in runs without an acknowledgement half a sequence ahead |
| `ReliableCommandQueues.ReliableCommandQueue.Contains` | protocol/src/reliability/reliable_command_queue.cpp:110-120 | the scan finds a pending id exactly if there is one |
| `ReliableCommandQueues.ReliableCommandQueue.Add` | protocol/src/reliability/reliable_command_queue.cpp:12-40 | the refusals in their order, and the new entry |
| `ReliableCommandQueues.ReliableCommandQueue.Acknowledge` | protocol/src/reliability/reliable_command_queue.cpp:42-67 | the scan removes the one match and reports ambiguity if there are two |
| `ReliableCommandQueues.ReliableCommandQueue.CollectDue` | protocol/src/reliability/reliable_command_queue.cpp:69-91 | the loop in order of positions, stopping at the first timeout with earlier entries already postponed |
| `ReliableCommandQueues.ReliableCommandQueue.NextDeadline` | protocol/src/reliability/reliable_command_queue.cpp:93-108 | the least deadline of all entries, or none for an empty queue |
| `ReliableCommandQueues.AddKeepsIdsUnique` | protocol/src/reliability/reliable_command_queue.cpp:12-40 | ids stay unique; refusal exactly if full or the id is pending; "already pending" is unreachable |
| `ReliableCommandQueues.AcknowledgementIsUnambiguous` | protocol/src/reliability/reliable_command_queue.cpp:42-67 | the ambiguity exception is unreachable and exactly the entries with that id are removed |
| `ReliableCommandQueues.AcknowledgementTells` | protocol/src/reliability/reliable_command_queue.cpp:42-67 | in every run the acknowledgement of a pending command reports when it was first sent and whether it was ever sent again |
| `ReliableCommandQueues.CollectResendsTheDue` | protocol/src/reliability/reliable_command_queue.cpp:69-91 | failure exactly if something has timed out; otherwise exactly the due packets are resent, in order, and exactly those postponed |
| `ReliableCommandQueues.IdleExactlyBeforeDeadline` | protocol/src/reliability/reliable_command_queue.cpp:69-108 | collecting does nothing if and only if the time is before the next deadline |
| `ReliableCommandQueues.EveryRunBacksOff` | protocol/src/reliability/reliable_command_queue.cpp:12-108 | in every run ids are unique and the gap before the k-th retry is at least min(2^k * 500, 4000) ms |
| `ReliableCommandQueues.CollectsByTheClock` | protocol/src/reliability/reliable_command_queue.cpp:69-91 | in every run, told from the times of sending alone, collecting fails if and only if a pending command was first sent 30 seconds ago, and otherwise sends again exactly those last sent min(2^k * 500, 4000) ms ago or more |
| `ReliableCommandQueues.AtMostTenSends` | protocol/src/reliability/reliable_command_queue.cpp:69-91 | no command is sent more than ten times before the session gives up |
| `SessionTransports.SessionTransport.SetConnected` | protocol/src/session_transport.cpp:604-611 | connecting starts the keepalive clock with no ping pending |
| `SessionTransports.SessionTransport.SendPing` | protocol/src/session_transport.cpp:204-211 | the ping becomes pending under its own id and the ping position advances |
| `SessionTransports.SessionTransport.ProcessPong` | protocol/src/session_transport.cpp:365-388 | a pong that is encrypted, not authentic or of the wrong size is refused without effect; only the matching one clears the pending ping; any accepted one renews the receive time |
| `SessionTransports.SessionTransport.ProcessTimers` | protocol/src/session_transport.cpp:505-545 | retransmission first, then the keepalive decision, suppressed while commands are pending |
| `SessionTransports.PingsAreApart` | protocol/src/session_transport.cpp:505-545 | over every run with a monotone clock two consecutive pings are at least one interval apart, whatever is received between them |
| `KeepaliveHistories.PingsExactlyWhenDue` | protocol/src/session_transport.cpp:505-545 | over every run an event sends a ping if and only if it is a timer of a connected session with no command pending and either the outstanding ping is an interval old with nothing heard since, or none is outstanding and nothing has been heard for an interval; a ping stays outstanding until its own pong, a new connection, a newer ping, or a timer that has heard since; the run fails only with the last id |
| `KeepaliveHistories.NewerRetires` | protocol/src/session_transport.cpp:519-541 | at most one ping is outstanding |
| `QuickLz.MostRecentIsLast` | protocol/src/compression/quick_lz.cpp:218-250 | the reference search misses no later token start |
| `QuickLz.Decoder.TableIsLookup` | protocol/src/compression/quick_lz.cpp:157-250 | at every back-reference the incremental hash table equals the most recent token start with that hash |
| `QuickLz.Decoder.UpdateHashUpto` | protocol/src/compression/quick_lz.cpp:218-250 | indexing the pending positions extends the search to them |
| `QuickLz.Decoder.DecodeLiteral` | protocol/src/compression/quick_lz.cpp:118-129 | one byte more, one token start more, table still current |
| `QuickLz.Decoder.CopyMatch` | protocol/src/compression/quick_lz.cpp:196-207 | an overlapping copy equals the periodic extension of the referenced bytes |
| `QuickLz.Decoder.DecodeReference` | protocol/src/compression/quick_lz.cpp:157-216 | a match or the first objection to it, as the reference says, table still current |
| `QuickLz.Decoder.DecodeTail` | protocol/src/compression/quick_lz.cpp:131-155 | the last literals with their interspersed control words |
| `QuickLz.Decoder.Run` | protocol/src/compression/quick_lz.cpp:76-108 | decoder and reference agree on every byte string, in result and in error |
| `QuickLz.MatchBeginsWithItsHash` | protocol/src/compression/quick_lz.cpp:157-216 | every copied match begins with three bytes of the encoded hash |
| `QuickLz.WrapIsRemainder` | protocol/src/compression/quick_lz.cpp:196-207 | the period of an overlapping match is the distance to the reference |
| `QuickLz.CheckHeader` | protocol/src/compression/quick_lz.cpp:14-66 | what passes the header has room for it and declares no more than the maximum |
| `QuickLz.Decompressed` | protocol/src/compression/quick_lz.cpp:14-108 | either an error or exactly the declared size, at most the maximum; the "reference offset" and "size mismatch" exceptions are unreachable |
| `QuickLz.Decompress` | protocol/src/compression/quick_lz.cpp:14-74 | the whole decompressor terminates in bounds on every byte string and agrees with the reference |
| `QuickLzAcceptance.BlockIsItsExpansion` | protocol/src/compression/quick_lz.cpp:14-318 | for all tokens written as encoders write them - control words of 31 flags and a sentinel, literals, short and long matches, literals at the end, either header - decompressing the bytes gives exactly what the tokens stand for, unless that is empty or over the maximum |
| `QuickLzAcceptance.AcceptedIfAndOnlyIfDescribed` | protocol/src/compression/quick_lz.cpp:76-108 | a compressed block gives a result if and only if tokens that stand for the result lie in it one after the other, with a control word that is not zero wherever the flags have run out, and are as long as declared |
| `QuickLzAcceptance.LyingIsDecoded` | protocol/src/compression/quick_lz.cpp:76-108 | from between any two tokens the decoder goes on to what all of them stand for |
| `QuickLzAcceptance.DecodedWasWritten` | protocol/src/compression/quick_lz.cpp:76-108 | whatever the decoder produces is what tokens found in the data stand for |
| `QuickLzFormat.StoredBlockIsItsPayload` | protocol/src/compression/quick_lz.cpp:56-62 | a block that is not compressed gives its payload, unless that is over the maximum |
| `QuickLzFormat.AcceptedIsABlock` | protocol/src/compression/quick_lz.cpp:14-66 | whatever passes the header check is a block as written: level one, no streaming, its own size and that of its content |
| `QuickLzFormat.ReadsMatch` | protocol/src/compression/quick_lz.cpp:157-183 | the two forms of a match: length less two beside the hash, or a zero and a third byte |
| `QuickLzFormat.HashIsShiftedXor` | protocol/src/compression/quick_lz.cpp:272-274 | the hash is, bit by bit, the exclusive-or of the 24-bit value with itself shifted right by twelve |
| `QuickLzFormat.NamedIsFound` | protocol/src/compression/quick_lz.cpp:185-195 | a match refers to the most recent token start with its hash |
| `CommandCodec.DecodeUndoesEncode` | protocol/src/command/writer.cpp:78-139 | unescaping an escaped value gives the value back, for every value |
| `CommandCodec.EscapeTable` | protocol/src/command/writer.cpp:84-131 | the eleven escaped characters by code and letter, and that there are no others |
| `CommandCodec.UnescapeIsInverse` | protocol/src/command/parser.cpp:128-198 | a letter after a backslash is accepted exactly if it escapes a character, and stands for that one |
| `CommandCodec.EncodeValue` | protocol/src/command/writer.cpp:78-139 | the escaped value, refused exactly if it contains NUL |
| `CommandCodec.DecodeValue` | protocol/src/command/parser.cpp:129-198 | the loop computes the recursive decoding, with both escape errors |
| `CommandCodec.ParseRow` | protocol/src/command/parser.cpp:83-127 | the loop splits at runs of spaces and at the first equals sign |
| `CommandCodec.ParseRows` | protocol/src/command/parser.cpp:56-78 | the loop splits at every bar and refuses empty rows |
| `CommandCodec.Parse` | protocol/src/command/parser.cpp:19-81 | trimming, name, rows and all error cases |
| `CommandCodec.ParameterMeaning` | protocol/src/command/parser.cpp:82-126 | a word without an equals sign is a bare name; around the first one stand a name, which must not be empty, and an escaped value |
| `CommandCodec.CommandMeaning` | protocol/src/command/parser.cpp:19-80 | a name alone, or a name, a space and rows after any spaces; an empty command and a missing name are refused |
| `CommandCodec.RowsOfOneRow` | protocol/src/command/parser.cpp:52-80 | without a bar there is one row, which must not be empty |
| `CommandCodec.RowOfOneWord` | protocol/src/command/parser.cpp:82-126 | without a space there is one parameter or none |
| `CommandCodec.RowAppend` | protocol/src/command/parser.cpp:83-127 | parsing a row is compositional: a space joins what is parsed on either side, errors included |
| `CommandCodec.RowsAppend` | protocol/src/command/parser.cpp:56-78 | likewise a bar joins rows |
| `CommandCodec.CommandWriter.Write` | protocol/src/command/writer.cpp:16-29 | the parameter is appended to the last row, or refused for its name without effect, or for its value with the name already written |
| `CommandCodec.CommandWriter.NextRow` | protocol/src/command/writer.cpp:31-41 | a new row, refused exactly while the last one is empty |
| `CommandCodec.CommandWriter.Take` | protocol/src/command/writer.cpp:43-57 | the text of what was written, refused exactly if the last of several rows is empty |
| `CommandCodec.RoundTrip` | protocol/src/command/parser.cpp:19-198 | parsing what any complete writer produced yields the same name, rows, order and values if and only if it does not end in a bare name with a line end |
| `CommandCodec.LineEndIsLost` | protocol/src/command/parser.cpp:19-35 | a concrete written command that reads back differently |
| `ChannelLinks.ChainUnique` | protocol/src/state/channel_store.cpp:241-295 | predecessor links determine the order of siblings |
| `ChannelLinks.CreateInserts` | protocol/src/state/channel_store.cpp:32-54 | creating inserts right after the predecessor in the parent's list |
| `ChannelLinks.CreateKeepsOthers` | protocol/src/state/channel_store.cpp:32-54 | every other list of siblings is unchanged |
| `ChannelForest.CreateKeepsForest` | protocol/src/state/channel_store.cpp:32-54 | a creation leaves a rooted ordered forest if and only if a new channel has a known parent and a predecessor that is zero or a child of that parent, and a known one stays in place or goes from the end of one list to the end of another not below it |
| `ChannelForest.CreateCanBreakALink` | protocol/src/state/channel_store.cpp:32-54 | a concrete creation of a known channel at an existing place that breaks the forest |
| `ChannelForest.RemoveDeletes` | protocol/src/state/channel_store.cpp:120-139 | removing deletes the channel from the list of its siblings |
| `ChannelForest.RemoveKeepsOthers` | protocol/src/state/channel_store.cpp:120-139 | every other list of siblings is unchanged |
| `ChannelForest.RemoveKeepsForest` | protocol/src/state/channel_store.cpp:120-139 | the rest is a rooted ordered forest if and only if the removed channel was a leaf |
| `ChannelForest.RemoveCanOrphan` | protocol/src/state/channel_store.cpp:120-139 | a concrete removal of a parent that breaks the forest |
| `ChannelForest.MoveRelocates` | protocol/src/state/channel_store.cpp:146-183 | moving deletes from the old list and inserts after the new predecessor, also within one list |
| `ChannelForest.MoveKeepsOthers` | protocol/src/state/channel_store.cpp:146-183 | every other list of siblings is unchanged |
| `ChannelForest.MoveKeepsForest` | protocol/src/state/channel_store.cpp:146-183 | an accepted move leaves a rooted ordered forest if and only if the new parent is not the channel or below it |
| `ChannelForest.MoveCanMakeACycle` | protocol/src/state/channel_store.cpp:146-183 | a concrete accepted move that makes a cycle |
| `ChannelForest.EveryRunKeepsForest` | protocol/src/state/channel_store.cpp:32-183 | every run of proper changes leads from one rooted ordered forest to another |
| `ChannelStores.ChannelStore.ApplyCreated` | protocol/src/state/channel_store.cpp:32-54 | the relinking loop and the insertion, keeping keys and subscription flags consistent |
| `ChannelStores.ChannelStore.Move` | protocol/src/state/channel_store.cpp:146-183 | the three refusals in their order, each changing nothing, and the two relinking loops |
| `ChannelStores.ChannelStore.ApplyEdited` | protocol/src/state/channel_store.cpp:56-90 | an edit is a move to the place it names, the open half kept, followed by the attributes it gives; a refused move leaves everything as it was |
| `ChannelStores.EditSetsWhatItGives` | protocol/src/state/channel_store.cpp:69-89 | an edit sets exactly the attributes it gives, each to the value given |
| `ChannelStores.ChannelStore.Remove` | protocol/src/state/channel_store.cpp:120-139 | every follower is relinked, channel and subscription are gone |
| `ChannelStores.ChannelStore.SetSubscribed` | protocol/src/state/channel_store.cpp:103-118 | set and flags stay in agreement, links untouched |
| `ChannelStores.ChannelStore.OrderedChildren` | protocol/src/state/channel_store.cpp:241-295 | the chain of a parent's children if they form one; an error only if they form none, with the reason |
| `ChannelStores.ChannelStore.AppendTree` | protocol/src/state/channel_store.cpp:297-318 | depth-first listing of everything below a parent; terminates, and the revisit exception is unreachable |
| `ChannelStores.ChannelStore.Tree` | protocol/src/state/channel_store.cpp:207-239 | succeeds if and only if the links are a rooted ordered forest; then lists every channel once, depth first in chain order, at a depth equal to the number of its ancestors |
| `ChannelStores.StandsUnique` | protocol/src/state/channel_store.cpp:207-318 | the tree that is listed is the only one the links stand for |
| `VoiceJitterBuffers.VoiceJitterBuffer.Push` | audio/src/voice_jitter_buffer.cpp:7-54 | late, rewinding, restarting and ordinary frames, duplicates and eviction |
| `VoiceJitterBuffers.VoiceJitterBuffer.FindFurthest` | audio/src/voice_jitter_buffer.cpp:40-53 | the scan finds the frame furthest ahead |
| `VoiceJitterBuffers.VoiceJitterBuffer.HasFutureData` | audio/src/voice_jitter_buffer.cpp:134-152 | true exactly if an end or a frame lies strictly ahead |
| `VoiceJitterBuffers.VoiceJitterBuffer.Pull` | audio/src/voice_jitter_buffer.cpp:56-115 | prebuffering, end, frame, loss, wait and giving up |
| `VoiceJitterBuffers.EvictKeeps` | audio/src/voice_jitter_buffer.cpp:40-53 | at most 32 frames stay, the expected one is never evicted, and the spread invariant holds |
| `VoiceJitterBuffers.PushOutcome` | audio/src/voice_jitter_buffer.cpp:7-54 | after any push everything buffered is within 2048 ids ahead, even after repeated rewinds before the start |
| `VoiceJitterBuffers.EveryRunIsFaithful` | audio/src/voice_jitter_buffer.cpp:7-158 | over every run: every buffered frame is unambiguously ahead, at most 32 frames are held, the output between resets covers consecutive ids, each frame its own and a pushed one, never more than 3 losses in a row |
| `VoiceJitterBuffers.LossIsGenuine` | audio/src/voice_jitter_buffer.cpp:56-115 | over every run: the expected slot is played if and only if its frame is due and playback may go on, and lost only if no frame is due, which is one accepted since the last reset and not given up because 32 nearer ones were held |
| `JitterReferences.EveryRunFollows` | audio/src/voice_jitter_buffer.cpp:7-158 | over every run the buffer holds what a reference over positions that do not wrap says: the first frame accepted for each position at or beyond the current one, the furthest given up beyond 32, with rewinds, restarts and late frames decided by position |
| `JitterReferences.PullIsExact` | audio/src/voice_jitter_buffer.cpp:56-152 | over every run each pull returns exactly what the reference says from the events alone: when to wait, which frame to play and whether it begins a stream, when a slot is lost and with which frame for recovery, and when to end |
| `VoiceJitterBuffers.EndStaysAhead` | audio/src/voice_jitter_buffer.cpp:7-54 | an end at or ahead of the expected id stays so through a step if and only if the step is not a rewind to an id half the ids or more before it |
| `VoiceJitterBuffers.EveryRunKeepsEnd` | audio/src/voice_jitter_buffer.cpp:7-158 | the end is never behind in a run without such a rewind |
| `VoiceJitterBuffers.EndCanFallBehind` | audio/src/voice_jitter_buffer.cpp:7-54 | a concrete run after which the end compares as behind |
| `VoiceJitterBuffers.StreamStartIsFirstSlot` | audio/src/voice_jitter_buffer.cpp:56-115 | a frame is marked as stream start exactly if it is the first output since the last reset |
| `VoiceJitterBuffers.PullingComesToRest` | audio/src/voice_jitter_buffer.cpp:56-124 | without pushes at most 4 * pending + 3 outputs precede Wait or End |
| `SpscRings.EveryInterleavingIsFifo` | audio/include/audio/spsc_ring.hpp:24-67 | the ring invariant under every interleaving of atomic steps |
| `SpscRings.NoSlotIsShared` | audio/include/audio/spsc_ring.hpp:24-67 | no slot is written while it is being read |
| `SpscRings.RingRefinesQueue` | audio/include/audio/spsc_ring.hpp:24-67 | each step is a step of a FIFO queue of one less than the capacity; popped values are a prefix of the pushed ones; refusal only when full, nothing only when empty |
| `SpscRings.IndicesTellOccupancy` | audio/include/audio/spsc_ring.hpp:38-42 | the two indices determine full, empty and the number of values |
| `SpscRings.EmplaceAppends` | audio/include/audio/spsc_ring.hpp:51-63 | uninterrupted, the value is appended unless the queue holds one less than the capacity |
| `SpscRings.PopTakesFirst` | audio/include/audio/spsc_ring.hpp:24-36 | uninterrupted, the first value is taken unless the queue is empty |
| `SpscRings.SpscRing.TryEmplace` | audio/include/audio/spsc_ring.hpp:51-63 | the uninterrupted call is its atomic steps in sequence |
| `SpscRings.SpscRing.TryPop` | audio/include/audio/spsc_ring.hpp:24-36 | likewise, returning the value popped |
| `SpscRings.SpscRing.Size` | audio/include/audio/spsc_ring.hpp:38-42 | the number of values in the ring |
| `PlaybackRefills.BufferAnswersRequest` | audio/src/audio_engine.cpp:331-334 | the target fits the ring and, unless limited by it, is the least that answers a request with a frame to spare |
| `PlaybackRefills.NoFrameIsRefused` | audio/src/audio_engine.cpp:377-381 | however the device pops, no push of the refill loop is refused, so no mixed frame is lost |
| `PlaybackRefills.RefillEnds` | audio/src/audio_engine.cpp:377-381 | without device activity the loop ends after exactly target minus size pushes |
| `TransmitProtocol.TogglesSwitchOneByOne` | audio/src/audio_engine.cpp:113-137 | each effective toggle advances the revision by one, others change nothing |
| `TransmitProtocol.EveryRunKeepsInvariant` | audio/src/audio_engine.cpp:419-519 | over every interleaving the state of the word, of queued and of sent frames is consistent, and revisions never go back |
| `TransmitProtocol.NoFrameEscapesMute` | client/src/runtime/network_runtime.cpp:173-213 | every voice frame sent was encoded under exactly the enabled revision the network thread had adopted; the muted check never drops a voice frame; talk-start marks are exactly the first five of a burst |
| `TransmitHistories.EveryRunIsTold` | audio/src/audio_engine.cpp:419-559 | over every interleaving: a captured voice frame is queued if and only if the worker acts on an enabled word and the queue has room, with that word's revision and a start mark for the first five of its burst; the queue is what was queued and not popped; sent are exactly, in order, the frames popped under their own revision that end talk or had transmission on; worker and network act on the word they last loaded |
| `TransmitHistories.PoppedWereQueued` | client/src/runtime/network_runtime.cpp:173-213 | what is popped is the first of what was queued, in order |
| `TransmitHistories.SentMeaning` | client/src/runtime/network_runtime.cpp:194-206 | a popped frame is sent if and only if it may go out |
| `TransmitHistories.ToggleLeavesSatisfied` | audio/src/audio_engine.cpp:113-137 | a thread leaves the exchange loop exactly when the word is as it wants; an exchange succeeds exactly if the word is still the one it saw and there is no spurious failure |
| `LossTrackers.LossTracker.Observe` | protocol/src/connection_statistics.cpp:35-106 | first, repeated, jumping and late packets, and the reported difference |
| `LossTrackers.NamedIsNearest` | protocol/src/connection_statistics.cpp:62-104 | the sequence number an id is taken for is the only one with that id within half the ids of the highest |
| `LossTrackers.ReceivedIsInTime` | protocol/src/connection_statistics.cpp:35-106 | received are exactly the sequence numbers that some id named while they were not before the first and at most 4096 behind the highest |
| `LossTrackers.EveryAccountBalances` | protocol/src/connection_statistics.cpp:35-106 | after any ids, of first..highest what was not received in time is missing if at most 4096 behind and confirmed lost if further, and the counters count exactly that |
| `LossTrackers.LossIsBounded` | protocol/src/connection_statistics.cpp:35-110 | lost < expected, at most 4096 missing, received + lost = expected |
| `LossTrackers.DeltasAddUp` | protocol/src/connection_statistics.cpp:35-110 | the reported differences sum to expected and lost |
| `HashCash.TrailingZerosIsExponent` | protocol/src/crypto/hash_cash.cpp:59-87 | the level is the exponent of two in the digest's value |
| `HashCash.GetLevel` | protocol/src/crypto/hash_cash.cpp:59-87 | the loop counts the trailing zero bits of the digest read as a little-endian integer, 160 for a zero digest, without overflow |
| `HashCash.FindOffset` | protocol/src/crypto/hash_cash.cpp:21-49 | the smallest offset from the start, or stopped at a check with nothing found so far, or exhausted exactly if there is none and no stop |
| `HashCash.ValidateOffset` | protocol/src/crypto/hash_cash.cpp:51-56 | accepts exactly the offsets that reach the level |
| `HashCash.ResumingIsSearching` | protocol/src/crypto/hash_cash.cpp:21-49 | a search resumed from the first offset of a lower level finds what a search from zero finds |
| `IdentityStores.Create` | config/src/identity_store.cpp:61-68 | the smallest offset of the level; fails exactly if the level is too large or no offset reaches it |
| `IdentityStores.IncreaseSecurityLevel` | config/src/identity_store.cpp:157-180 | a completed raise keeps the offset smallest; an interrupted or refused one changes nothing |
| `IdentityStores.EveryRaiseIsOneSearch` | config/src/identity_store.cpp:157-180 | any history of raises ends with the offset that one search from zero finds |
| `IdentityStores.RaiseCanComplete` | config/src/identity_store.cpp:157-180 | a raise from the smallest offset can complete if and only if any offset at all reaches the higher level |
| `DerKeys.WriteDerInteger` | protocol/src/identity.cpp:186-216 | a positive integer field, refused exactly if its length needs the long form |
| `DerKeys.PublicKey` | protocol/src/identity.cpp:218-265 | coordinates below 2^256 are always written, never refused |
| `DerKeys.DerReader.ReadLength` | protocol/src/crypto/p256.cpp:71-95 | short and long lengths of up to eight bytes as big-endian values, without overflow |
| `DerKeys.DerReader.Read` | protocol/src/crypto/p256.cpp:46-64 | the content of a field with the expected tag, never beyond the data |
| `DerKeys.DecodeCoordinate` | protocol/src/crypto/p256.cpp:183-208 | accepted exactly if non-empty, non-negative and below 2^256; then the same value in 32 bytes |
| `DerKeys.AcceptedCoordinate` | protocol/src/crypto/p256.cpp:183-208 | whatever encoding is accepted reads as the shortest encoding of its value |
| `DerKeys.ParsePublicKey` | protocol/src/crypto/p256.cpp:107-155 | the field walk with every refusal in its order |
| `DerAcceptance.KeyIfAndOnlyIfMadeOf` | protocol/src/crypto/p256.cpp:107-155 | bytes are read as a point if and only if they are a sequence of marker, key size and two coordinates with nothing else, lengths in any form of up to eight bytes, and the point is that of the coordinates |
| `DerAcceptance.LengthRead` | protocol/src/crypto/p256.cpp:71-95 | every short and long form of a length is read as its value |
| `DerAcceptance.FieldRead` | protocol/src/crypto/p256.cpp:46-64 | every field is read as its content, wherever it stands |
| `DerKeys.KeyRoundTrip` | protocol/src/identity.cpp:178-265 | reading a written key yields the point of its coordinates, for all coordinates |
| `DerKeys.EncodingIsInjective` | protocol/src/identity.cpp:178-265 | distinct coordinates are written differently |

## Left out

- Sockets, DNS, audio devices, file storage, terminal, windows and configuration prompts: input, output and foreign calls.
- AES-EAX, SHA, P-256 signatures, Ed25519, Opus and noise suppression: library calls, represented by their contracts or omitted.
- The handshake, and AckLow, Voice and whisper packets: they use the same sequence arithmetic and add no new state machine.
- AckLateness.LatenessLimitIsExact: is about runs in which no acknowledgement arrives half a sequence or more ahead of the one expected next.
- ClosedLoops.RemovedWasReceived: starts after the handshake's first acknowledgement, which names no packet, and takes acknowledgements as encrypted, as this client sends them.
- Statistics other than loss accounting (round trip times, bandwidth rates, windows by time): floating-point smoothing.
- Parsers of single messages and the dispatch in the session: one branch per field.
- Applying a channel list: repeated insertion of known entries; its result is judged by Tree.
- Delivery of talk-end markers: one queued before the network thread adopts the new revision may be discarded, and no promise is made that it arrives.
- Memory order weaker than interleaved atomic steps.
- Wrap-around of the 64-bit transmit revision, of the 64-bit sequence numbers of the loss tracker, and of times.
- The progress callback of the offset search.
- SessionTransports.SessionTransport.SendCommand: the times at which fragments are sent are given by a function of their number, in place of a clock read for each.
- DerKeys.DerReader.Read: the offset after a failed read is not stated, because the reader is then abandoned.
- QuickLz.Decoder.Run: the state of the decoder after an error is not stated, because it is discarded.
