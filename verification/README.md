# A verified model of the SRTP file transfer

`ftpclient/` copies one file from a client to a server over UDP with a go-back-N protocol of its
own: a window of 50 packets, 16-bit sequence numbers that wrap around, cumulative acknowledgements
that name the next packet expected. `srtp/` holds an unfinished library version of the same idea, of
which the ordered inbox is modelled here. This project models both in Dafny and proves what the
protocol guarantees, over which networks, and where its guarantees end.

| file | contents |
|---|---|
| `Packets.dfy` | wire format, constants, 16-bit numbers (`ftpclient/srtp_common.h`) |
| `Chunks.dfy` | how a file is cut into data packets with unbounded indices 1, 2, 3, ... |
| `Sender.dfy` | the client's loops as functions on its variables, and the index they track |
| `Receiver.dfy` | the server's loop as a fold over received packets |
| `LinkedQueue.dfy` | the linked list of `ftpclient/list.h`, as a class on the heap |
| `ClientProgram.dfy`, `ServerProgram.dfy` | both programs in imperative form, proved equal to the functions |
| `FifoNetwork.dfy` | client and server over lossy, repeating, ordered channels: refinement of unbounded indices |
| `ClientRuns.dfy` | the client of every network run is the data loop of the program |
| `Rounds.dfy` | exact number of loss-free rounds that finish a transfer |
| `Progress.dfy` | which states of a transfer can still end well, over ordered channels |
| `AnyNetwork.dfy` | client and server over a network that also reorders: exact limits |
| `KeptFiles.dfy` | the same network: when a kept file is the source |
| `OrderedAcks.dfy`, `OrderedLimits.dfy` | the same network with acknowledgements in order |
| `Hierarchy.dfy` | runs over one network as runs over the next |
| `Endings.dfy` | what the end of a client says about the server, over both kinds of network |
| `Inbox.dfy` | `handle_data_pkt` of `srtp/srtp_impl.cpp` |
| `Request.dfy` | formatting and parsing of the write request |

## Main results

* Over ordered channels with loss and repetition, the system with 16-bit numbers is, step by step
  and over runs of any length, the image of the same system on unbounded indices
  (`FifoNetwork.RunCommutes`); so no comparison is ever fooled by a wrap-around. The server's file is
  always a prefix of the source, and complete once the client leaves its loop (`FifoNetwork.Delivery`).
* From every reachable state with the client at its loop head, the server running and empty channels,
  exactly ceil((size - written) / (50 * 2043)) loss-free rounds finish the transfer
  (`Rounds.ExactRounds`, `Rounds.TransferCompletes`).
* In every reachable state, whatever has been lost: some continuation ends with the client done and
  the source kept if and only if neither side has given up and a client that is done has its FIN
  accepted or still under way (`Progress.SuccessExact`).
* Over a network that may also reorder, these guarantees end at some file size. The code is modelled
  as it is and each limit is proved in both directions:
  * what the server writes is a prefix of the source in all runs if and only if the file has at most
    65486 * 2043 bytes (`AnyNetwork.PrefixExact`). This counts every byte written, also by the write
    that makes the server delete the file; such a deletion for excess data is reachable exactly
    beyond the same size (`AnyNetwork.ExcessExact`);
  * a kept file is the source, for all files of a size and all runs, if and only if that size is at
    most 65500 * 2043 bytes (`KeptFiles.KeptExact`). For every larger file there is a run in which
    the client finishes and the server keeps a file of the right length with chunks 2 and 65538
    (empty in a file of fewer chunks) exchanged (`KeptFiles.KeptSwapped`);
  * a finished client implies a complete server if and only if the file fits into one packet
    (`AnyNetwork.CompletionExact`), and a deletion because of an early FIN is reachable exactly
    otherwise (`AnyNetwork.EarlyFinExact`).
* The test that is meant to stop the client on acknowledgements outside its window is never true
  (`Sender.OutsideNever`), so that an old acknowledgement drains the whole window
  (`AnyNetwork.Drain`). Only reordered acknowledgements make the one-packet limit so small: when they
  keep their order and data packets do not, a finished client implies a complete server if and only
  if the file has at most 65486 * 2043 bytes (`OrderedLimits.OrderedExact`). Beyond that a finished
  client may meet a server that has written too much, but at no size one that is short or that
  deletes the file because of an early FIN (`OrderedLimits.NeverShort`); and a kept file is the source,
  for all files of a size and all runs, if and only if that size is below 65537 * 2043 bytes
  (`OrderedLimits.OrderedKeptExact`).
* A client that has not run out of patience is done only when the server has kept the file: over
  ordered channels that file is the source (`Endings.FifoDoneIsKept`); over a network that also
  reorders this holds for all files of a size and all runs if and only if the size is at most
  65500 * 2043 bytes (`Endings.ConfirmedExact`).
* Runs over ordered channels are runs with ordered acknowledgements, and these are runs over any
  network (`Hierarchy.FifoOccurs`, `Hierarchy.OccursReachable`).
* The client of every run over every one of these networks computes what the program's data loop
  computes from the replies it took (`ClientRuns.ProcessIsSession`).
* The server accepts as many packets as any receiver could from the same trace
  (`Receiver.GreedyOptimal`), and how its loop ends is a closed formula of the trace
  (`Receiver.OutcomeExact`); what it answers is one too, with a FINACK if and only if the file is kept
  (`Receiver.RepliesExact`).
* Which of its five verdicts a write request gets is characterised for every header, buffer and disk
  (`Request.AcceptExactly`, `ExistsExactly`, `SilentExactly`, `CannotCreateExactly`, `ToldExactly`).

Where the code and its intent differ, the model follows the code: the never-firing window test
(`ftpclient/ftpclient.c:150-154`), the local `read` that is reused for receive results
(`ftpclient/ftpclient.c:128`), the refill that pads the last window with empty packets
(`ftpclient/ftpclient.c:102`), the request check that rejects only when both the command and the
number are wrong (`ftpclient/ftpserver.c:45`), and the inbox that is never emptied
(`srtp/srtp_impl.cpp:125`).

Environment: the file has the length that `stat` reported and does not change, `fread` returns
everything available up to the request, `malloc` and local writes succeed. Clocks are
nondeterministic steps (`AckTimeout`, `Quiet`, `CloseTimeout`, `ServerGiveUp`) or the end of a trace;
the network is the channels of the systems or an arbitrary trace.

## Model

| member | source | states |
|---|---|---|
| Packets.DecodeEncode | ftpclient/srtp_common.h:195-205 | a packet built and sent is read back with the same command, number, length and payload, whatever stale bytes follow it in the receive buffer |
| Packets.EncodeDecode | ftpclient/srtp_common.h:46-52 | every decodable buffer starts with the encoding of what it decodes to, so decoding loses nothing |
| Packets.NetworkOrder | ftpclient/srtp_common.h:46-94 | the bytes of every packet: command, number and length each with the high byte first, payload |
| Packets.WireVectors | ftpclient/srtp_common.h:18-25 | one packet of every command used, byte for byte |
| Packets.SetSeqNum | ftpclient/srtp_common.h:88-94 | byte 1 gets the high and byte 2 the low half, the number read back is the one written, no other byte changes |
| Packets.SetLen | ftpclient/srtp_common.h:54-60 | byte 3 gets the high and byte 4 the low half, the length read back is the one written, no other byte changes |
| Packets.CreatePacket | ftpclient/srtp_common.h:195-205 | the fresh buffer is the encoding of the given command, number and payload and decodes to them |
| Packets.WrapInjective | ftpclient/srtp_common.h:80-86 | indices closer than 2^16 are told apart by their 16-bit numbers |
| Chunks.ConsecutiveBytes | ftpclient/ftpclient.c:102-112 | consecutive packets carry exactly the file bytes between their ends |
| Chunks.FirstPacketsBytes | ftpclient/ftpclient.c:102-112 | the first k payloads join to the first min(k * 2043, size) bytes, and to the whole file exactly when k * 2043 reaches the size |
| Chunks.DataPacketFits | ftpclient/ftpclient.c:104-110 | every data packet fits PACKET_SIZE and survives the wire, its 16-bit length is never truncated |
| Chunks.FullChunkFillsDatagram | ftpclient/srtp_common.h:33-35 | a full chunk has 2043 bytes and its packet exactly 2048 |
| Sender.OutsideNever | ftpclient/ftpclient.c:150-154 | the test for acknowledgements outside the window is false for all values |
| Sender.PopCountExact | ftpclient/ftpclient.c:141-159 | for every consecutive window and every 16-bit acknowledgement the pop loop removes exactly min(n, (a - f) mod 2^16) packets |
| Sender.PopLeavesConsecutive | ftpclient/ftpclient.c:141-159 | the window left counts on from the packet where the loop stopped |
| Sender.FReadIsChunk | ftpclient/ftpclient.c:104-107 | while `read` is not ahead of the file position, the amount requested yields the next whole chunk |
| Sender.AppendChunkTracks | ftpclient/ftpclient.c:104-111 | a pass of the refill loop appends packet i with chunk i under number i mod 2^16, although `read` was overwritten |
| Sender.RefillTracks | ftpclient/ftpclient.c:102-112 | a refill keeps the window and, while bytes are missing, fills it to 50 packets, padding with empty ones |
| Sender.PopLoopTracks | ftpclient/ftpclient.c:136-159 | any acknowledgement, stale or not, moves `written` to a chunk boundary and leaves the packets from there on |
| Sender.PopLoopTo | ftpclient/ftpclient.c:136-159 | an acknowledgement for an index in the window moves the window to that index |
| Sender.HandleTracks | ftpclient/ftpclient.c:126-170 | every received packet keeps the window tied to an index; only an ACK moves it, only a FIN ends the listening, and it leaves the loop only with everything written |
| Sender.TrackedConservation | ftpclient/ftpclient.c:155-158 | written plus bytes in the window equals the file position and is at most the size |
| Sender.SessionTracks | ftpclient/ftpclient.c:100-171 | for every schedule of received packets the data loop keeps the index, and ends through its test exactly when all bytes are acknowledged |
| Sender.SessionConserves | ftpclient/ftpclient.c:100-171 | byte conservation for every file and every schedule; `written != size` is equivalent to `written < size` |
| Sender.ReceiveAllEnding | ftpclient/ftpclient.c:126-170 | a receive loop ends with an empty receive and -1 in `read`, or at the first FIN with its length in `read`, and bytes missing decide whether that is fatal |
| Sender.SessionEnding | ftpclient/ftpclient.c:100-171 | for every schedule: ended by the ACK timer exactly when one window more than the rounds was sent; by the server only with a FIN in the last round and bytes missing; otherwise with all written |
| Sender.TransmissionsAreWindows | ftpclient/ftpclient.c:102-116 | for every schedule each pass sends 50 consecutive packets of the file, and the index they start at never decreases |
| LinkedQueue.List.constructor | ftpclient/list.h:38-44 | an empty queue |
| LinkedQueue.List.Add | ftpclient/list.h:16-36 | appends to the abstract queue; nodes stay distinct, unfreed and linked in order, tail is the last node |
| LinkedQueue.List.RemoveFront | ftpclient/list.h:46-54 | drops the first element and nothing else; tail keeps its old value even when the list is empty |
| LinkedQueue.Perform | ftpclient/list.h:16-54 | any interleaving of additions and removals leaves the list equal to the mathematical queue, size equal to its length |
| LinkedQueue.FifoOrder | ftpclient/list.h:16-54 | removed elements followed by queued ones are the initial elements followed by the added ones, in order |
| ClientProgram.Client.constructor | ftpclient/ftpclient.c:91-94 | the initial variables |
| ClientProgram.Client.AppendChunk | ftpclient/ftpclient.c:104-111 | one pass of the refill loop computes the step function on the linked list |
| ClientProgram.Client.FillWindow | ftpclient/ftpclient.c:102-112 | the refill loop computes the refill function; every packet made is logged |
| ClientProgram.Client.Refill | ftpclient/ftpclient.c:102-112 | a refill keeps the log: packet i ever made is chunk i of the file |
| ClientProgram.Client.SendAll | ftpclient/srtp_common.h:182-193 | the walk over the list sends exactly the window, in order |
| ClientProgram.Client.PopOne | ftpclient/ftpclient.c:155-158 | one pass of the pop loop counts the first packet's bytes and drops that packet, nothing else changes |
| ClientProgram.Client.PopAcked | ftpclient/ftpclient.c:141-159 | the pop loop on the linked list computes the pop function |
| ClientProgram.Client.Handle | ftpclient/ftpclient.c:126-169 | the reaction to one received packet |
| ClientProgram.Client.ReceiveAll | ftpclient/ftpclient.c:126-170 | the receive loop on any packets |
| ClientProgram.Client.Round | ftpclient/ftpclient.c:100-170 | one pass sends the refilled window and keeps the log and the precondition of the next refill |
| ClientProgram.Client.CopyFile | ftpclient/ftpclient.c:100-171 | for every schedule the program computes the session function, sends exactly the windows of `Transmissions`, keeps packet i equal to chunk i, and finishes exactly when all bytes are acknowledged |
| ClientProgram.LogIsFilePrefix | ftpclient/ftpclient.c:102-112 | in every run the first k packets ever made join to the first min(k * 2043, size) bytes |
| ClientRuns.ProcessIsSession | ftpclient/ftpclient.c:100-171 | every run of the client with its control points, up to the end of the data loop, has the variables and the ending (all written, timer, closed by the server) of the data loop on the replies taken, grouped by listening phase |
| ClientRuns.FifoClientIsSession | ftpclient/ftpclient.c:100-171 | for every step sequence over ordered channels, the client that has ended its loop is the data loop on exactly the replies it took in that run |
| ClientRuns.AnyClientIsSession | ftpclient/ftpclient.c:100-171 | the same in every reachable state over any network, on groups of replies that the server sent |
| Receiver.GreedyOptimal | ftpclient/ftpserver.c:147-158 | k packets are accepted if and only if the numbers 1..k (mod 2^16) occur in order in the trace |
| Receiver.FileIsAccepted | ftpclient/ftpserver.c:136-163 | on every trace the file is the joined payloads of the accepted packets and the expected number is one more than their count |
| Receiver.AckIsCumulative | ftpclient/ftpserver.c:149-158 | every data packet is answered with the number 1 + accepted so far, modulo 2^16 |
| Receiver.OutcomeExact | ftpclient/ftpserver.c:136-194 | the file is kept if and only if the first FIN arrives with all bytes accepted; excess, early FIN and silence each remove it, and which of them is determined |
| Receiver.RepliesExact | ftpclient/ftpserver.c:147-194 | on every trace the replies are the cumulative ACKs of the data packets read, plus one FINACK if and only if the file is kept; an early FIN and other commands get no answer |
| ServerProgram.Server.constructor | ftpclient/ftpserver.c:129-130 | the initial variables |
| ServerProgram.Server.Receive | ftpclient/ftpserver.c:147-193 | one pass of the loop computes the step function |
| ServerProgram.Server.CopyFile | ftpclient/ftpserver.c:136-194 | on every trace the program computes the fold, its replies and the closed-form outcome |
| FifoNetwork.StepInv | ftpclient/ftpclient.c:100-171 | every step, loss and repetition keeps the invariant on indices and channels |
| FifoNetwork.PopCommutes | ftpclient/ftpclient.c:141-159 | inside the window the 16-bit pop loop stops at the same packet as on unbounded indices |
| FifoNetwork.ReceiveCommutes | ftpclient/ftpserver.c:147-178 | the server's 16-bit test accepts exactly the index it waits for |
| FifoNetwork.StepCommutes | ftpclient/ftpserver.c:136-172 | each step is possible in both systems or in neither and does the same in both |
| FifoNetwork.RunCommutes | ftpclient/ftpclient.c:100-171 | refinement over whole runs: the 16-bit system runs exactly the step sequences of the indexed one and ends in the image of its state |
| FifoNetwork.ReachableIndices | ftpclient/ftpclient.c:100-171 | in every reachable state first <= expected <= first + n, data in flight lies in [expected - 50, expected + 49], acknowledgements in flight never decrease and lie in [first, expected] |
| FifoNetwork.ComparisonsExact | ftpclient/ftpserver.c:149-149 | every 16-bit comparison that can occur answers like the comparison of indices |
| FifoNetwork.Delivery | ftpclient/ftpserver.c:160-178 | the file is always a prefix, it is the source once the client has left its loop or a FIN is in flight; no file is removed for excess data or an early FIN, and a kept file is the source |
| Rounds.OneRound | ftpclient/ftpclient.c:100-170 | one loss-free round empties the window and moves client and server to first + 50 |
| Rounds.ExactRounds | ftpclient/ftpclient.c:100-170 | exactly ceil((size - written) / (50 * 2043)) loss-free rounds finish the transfer, from every reachable state with the client at its loop head, the server running and empty channels |
| Rounds.TransferCompletes | ftpclient/ftpclient.c:174-194 | after those rounds the closing exchange ends with the source kept by the server |
| Progress.SuccessFrom | ftpclient/ftpclient.c:100-194 | from every reachable state in which neither side has given up and a client that is done has its FIN accepted or under way, a run to the source kept and the client done |
| Progress.NoSuccessFrom | ftpclient/ftpclient.c:100-194 | from every other reachable state no continuation gets there |
| Progress.SuccessExact | ftpclient/ftpclient.c:100-194 | both together: an if-and-only-if on the present state |
| AnyNetwork.ReachableInv | ftpclient/ftpclient.c:100-171 | the invariant of client, server and everything ever sent, over any network |
| AnyNetwork.CreatedBound | ftpclient/ftpclient.c:102-112 | a run makes at most 49 packets more than the file needs |
| AnyNetwork.PrefixSafety | ftpclient/ftpserver.c:147-178 | with at most 65535 packets made the file is a prefix in every reachable state, and a kept file is the source |
| AnyNetwork.PrefixExact | ftpclient/ftpserver.c:147-172 | what the server has written, including the write that makes it delete the file, is a prefix in all runs if and only if the file has at most 65486 * 2043 bytes |
| AnyNetwork.BeyondSafeSize | ftpclient/ftpserver.c:147-172 | for every larger file a run in which the server writes more bytes than the file has and deletes it |
| AnyNetwork.ExcessExact | ftpclient/ftpserver.c:168-172 | a deletion for excess data is reachable if and only if the file has more than 65486 * 2043 bytes |
| AnyNetwork.Drain | ftpclient/ftpclient.c:141-159 | repeated old acknowledgements take the client out of its loop while the server receives nothing |
| AnyNetwork.PrematureFinish | ftpclient/ftpclient.c:141-159 | for every file of more than one chunk a run in which the client finishes with only chunk 1 delivered |
| AnyNetwork.CompletionExact | ftpclient/ftpclient.c:141-172 | a finished client implies a complete server in all runs if and only if the file fits into one packet |
| AnyNetwork.EarlyFin | ftpclient/ftpserver.c:173-178 | for every file of more than one chunk a run in which the FIN of the finished client makes the server delete the file |
| AnyNetwork.EarlyFinExact | ftpclient/ftpserver.c:173-178 | a deletion for an early FIN is reachable if and only if the file does not fit into one packet |
| KeptFiles.KeptIsSource | ftpclient/ftpserver.c:147-178 | up to 65500 * 2043 bytes a file that the server keeps is the source, in every reachable state |
| KeptFiles.KeptSwapped | ftpclient/ftpserver.c:147-178 | for every larger file a run in which the client has finished and the server keeps a file of the right length with chunks 2 and 65538 exchanged |
| KeptFiles.KeptExact | ftpclient/ftpserver.c:147-178 | for all files of a size and all runs a kept file is the source if and only if the size is at most 65500 * 2043 bytes |
| Hierarchy.OccursReachable | ftpclient/ftpclient.c:126-170 | every run with ordered acknowledgements is a run over any network |
| Hierarchy.FifoOccurs | ftpclient/ftpclient.c:100-194 | every run over ordered channels is a run with ordered acknowledgements: same client, server and acknowledgements in flight |
| OrderedLimits.NeverShort | ftpclient/ftpclient.c:136-172 | with ordered acknowledgements and arbitrary data delivery, for every file size: at least the file's length is written once the client has left its loop, exactly that while the server runs or when it keeps the file, and no deletion for an early FIN |
| OrderedLimits.OrderedDelivery | ftpclient/ftpclient.c:136-159 | with at most 65535 packets made in addition: always a prefix, the source once the client has left its loop or the file is kept, deletion only by timeout |
| OrderedLimits.OrderedExact | ftpclient/ftpclient.c:136-172 | with ordered acknowledgements a finished client implies a complete server in all runs if and only if the file has at most 65486 * 2043 bytes |
| OrderedLimits.TooMuch | ftpclient/ftpserver.c:147-172 | for every larger file a run in which the client has finished and the server has written more than the file has |
| OrderedLimits.OrderedKept | ftpclient/ftpserver.c:147-178 | with ordered acknowledgements a kept file below 65537 * 2043 bytes is the source |
| OrderedLimits.KeptReplaced | ftpclient/ftpserver.c:147-178 | for every file from that size on a run in which the client has finished and the server keeps the file with chunk 1 in the place of chunk 65537 |
| OrderedLimits.OrderedKeptExact | ftpclient/ftpserver.c:147-178 | for all files of a size and all runs with ordered acknowledgements a kept file is the source if and only if the size is below 65537 * 2043 bytes |
| Endings.FifoDoneIsKept | ftpclient/ftpclient.c:178-194 | over ordered channels, in every run without a close timeout a client that is done has its file kept, and it is the source: leftover ACKs do not end the exchange |
| Endings.DoneUnconfirmed | ftpclient/ftpclient.c:178-194 | for every file a run in which the FIN is lost and the client is done by timeout while the server waits |
| Endings.FifoFailureExact | ftpclient/ftpclient.c:119-122 | a client can fail for exactly the files that are not empty, and only by the ACK timer |
| Endings.FaultsReachable | ftpclient/ftpserver.c:136-146 | the reachable states are closed under loss and repetition of any packet in flight, and a waiting server may time out |
| Endings.ConfirmedIsKept | ftpclient/ftpclient.c:178-194 | over any network, in every run without a close timeout a client that is done has its file kept |
| Endings.ConfirmedExact | ftpclient/ftpclient.c:178-194 | that file is the source for all files of a size and all runs if and only if the size is at most 65500 * 2043 bytes |
| Endings.AnyFailureExact | ftpclient/ftpclient.c:119-122 | failure by the ACK timer alone, and exactly for files that are not empty, over any network |
| Endings.EverythingSent | ftpclient/ftpclient.c:113-122 | the client listens, gives up or leaves its loop only when every packet it made has been sent |
| Inbox.Connection.HandleDataPkt | srtp/srtp_impl.cpp:118-155 | the scan and the insertion in place compute the arrival function |
| Inbox.InboxIsStableSort | srtp/srtp_impl.cpp:125-155 | after any run the inbox is sorted, a permutation of the messages not delivered on arrival, equal numbers in order of arrival |
| Inbox.StableSortUnique | srtp/srtp_impl.cpp:133-144 | these properties determine the inbox completely |
| Inbox.DeliveredConsecutive | srtp/srtp_impl.cpp:118-123 | the delivered numbers are consecutive from the initial value and below 2^16 |
| Inbox.AtMostOnce | srtp/srtp_impl.cpp:118-123 | each number is delivered at most once, at most 2^16 ever, none when the 32-bit counter starts beyond 65535 |
| Inbox.NothingLost | srtp/srtp_impl.cpp:118-155 | fifo and inbox together hold every message that arrived, once per arrival |
| Request.StrChr | ftpclient/ftpserver.c:57-57 | the first separator of the C string |
| Request.StrRChr | ftpclient/ftpserver.c:56-56 | the last '/' of the C string |
| Request.ScanExact | ftpclient/ftpserver.c:95-96 | a size is read exactly from white space, an optional sign and digits with nothing after them, as the signed value cut off to a `long` |
| Request.FormatVector | ftpclient/ftpclient.c:42-43 | a request in ASCII, byte for byte |
| Request.ParseRequest | ftpclient/ftpserver.c:45-109 | the verdict on the request and the buffer after the cut in place |
| Request.RequestRoundTrip | ftpclient/ftpclient.c:42-43 | every name without separator and NUL and every non-negative `long` is recovered as base name and size, when a NUL follows the request; existing and unwritable files are refused |
| Request.AcceptExactly | ftpclient/ftpserver.c:45-109 | for every header, buffer and disk: accepted as (base, n) if and only if the command or the number is right, the file is new and can be made, and the text is a path ending in base, the separator and white space, sign and digits that denote n |
| Request.ToldExactly | ftpclient/ftpserver.c:45-67 | BADREQ is sent if and only if both header fields are wrong or there is no separator |
| Request.ExistsExactly | ftpclient/ftpserver.c:83-92 | refused because the file exists, if and only if the header is acceptable, there is a separator and the part after the last '/' names a file, whatever the size says |
| Request.SilentExactly | ftpclient/ftpserver.c:93-99 | dropped without an answer if and only if that name is new and the size is no number or negative |
| Request.CannotCreateExactly | ftpclient/ftpserver.c:100-109 | not created if and only if that name is new and cannot be opened and the size is usable |
| Request.DirectoryStripped | ftpclient/ftpserver.c:55-78 | the request "d/a" with size 5, in bytes, is accepted as "a" |
| Request.NegativeRefused | ftpclient/ftpserver.c:95-99 | the request "a" with size -5, in bytes, is dropped |
| Request.BaseNameUnique | ftpclient/ftpserver.c:71-78 | a name has only one base name |
| Request.AcceptedNameIsPlain | ftpclient/ftpserver.c:55-99 | for every buffer whatsoever an accepted name contains no '/', no separator and no NUL and names no existing file |

## Left out

- Sockets, addresses, `fork`, signals, sleeping and `errno`: receiving is delivery by the channel or the next packet of a trace.
- A failed receive counts as no packet; the copy of an uninitialised buffer in `read_only_from` and zero-length datagrams are not modelled.
- The retry timers of the FIN/FINACK exchange: the client may send FIN any number of times and may give up at any time; the server's wait for an ACK of its FINACK is not modelled.
- Repeated write requests that make the server start several children, and the bookkeeping of children.
- A failed local write on the server, which leaves the partial file in place.
- Packets whose length field exceeds the receive buffer: a packet's length is the length of its payload.
- 64-bit overflow of `written`, `read` and `filesize`: they are unbounded integers.
- LinkedQueue.List.Add: `size` is an unbounded number instead of an `unsigned int`, and the failing paths (null list, failed allocation) are not modelled.
- LinkedQueue.List.RemoveFront: the null-list path is not modelled.
- Inbox.Connection.HandleDataPkt: messages are identified by number, length and identity instead of their bytes, because the code skips the header twice; the null-connection path is not modelled.
- Request.ParseRequest: a buffer without any NUL is read up to its end instead of beyond it; a size that overflows a `long` saturates.
- Request.CopyString: models the text copied; for a name with '/' the source's `strncpy` pads one byte past its allocation (`ftpclient/ftpserver.c:75-76`), which is not modelled.
- The rest of `srtp/` (`establish_conn`, `send_srtp_data`, `recv_srtp_data`, proxy threads, fd maps): unfinished code whose loops never exit.
- Debug printing, argument checking, command names and the `PKT_*` macros.
