# A verified model of the NetbasOS kernel's decoders and protocols

This project models, in Dafny, the parts of the NetbasOS kernel whose correctness is hard to see: the DEFLATE decoder, the
TCP engine, packet buffers and Internet checksums, and four independent algorithms (initialisation order of shared
libraries, NTFS run lists, the DNS retry machine, 64-bit division).  Each part is written as the C code is, with loops,
fields and arrays, and is proved against a specification that does not mention how the code works.  `dafny verify
dfyconfig.toml` checks everything.

## What is modelled, and what is proved

**DEFLATE** (`Bits`, `BitStream`, `HuffmanCode`, `Huft*`, `History`, `Inflate*`, `BitWrite`, `*Encode`).  `InflateSpec` says what a stream means
in the words of section 3.2 of RFC 1951: canonical codes by length, copying from an unbounded history, blocks one after the
other.  `HuftBuild.Build` is `huft_build` with its counts, its value list, its table stack, its bit-reversed code stepping
and its minimum-size tables; walking the tables it makes decodes exactly the canonical code at every position of every
stream.  `Inflate.Inflater` is the rest of the decoder: bit buffer, 32 KiB window, chunked copies, the three block types, the
look-ahead undo.  `InflateAll` returns what the specification returns, failures included, for every input that the
specification gives a meaning: one whose blocks end and whose codes never lead into memory that `huft_build` leaves unset.
The specification in turn is proved against an encoder for stored, fixed and dynamic blocks: every stream it writes decodes
to what its blocks mean (`DeflateEncode.RoundTrip`), a block decodes exactly where one of its blocks stands
(`DeflateEncode.BlockExactly`), and the fixed codes are those of the table in section 3.2.6 of RFC 1951
(`FixedEncode.DecodeFixed`).

**TCP** (`Tcp*`).  Sequence numbers are 32-bit and cyclic throughout.  `TcpReceive.Receiver` is the data half of
`tcp_receive`; `TcpRuns.RunDelivers` says that over every run of arriving segments the application gets the peer's stream
without gap, repetition or reordering, up to and including the first segment that leaves a queued one behind `rcv_nxt`, and
that the invariant then holds exactly when none is left behind.  `TcpRuns.NoReplacementNoneLeft` says that this cannot happen
unless a segment replaces a shorter one into its successor.  `TcpSend.Sender` is `tcp_enqueue`, `tcp_output`, `tcp_rexmit` and the acknowledgement
half; `TcpSendState.RunKeeps` says that over every run the two queues are one contiguous run of sequence numbers that carries
the unacknowledged end of everything ever enqueued.  `TcpPcb.Tcp` is the state machine with its three lists;
`TcpPcbSteps.RunOk` proves the axioms about the lists written in `sys/net/tcp.h`, and that every block follows the diagram
of section 3.2 of RFC 793; `TcpMeaning.RunMeans` says that over every run the state of a connection is determined by
whether its handshake is complete, whether our FIN was sent and acknowledged, whether the peer's came, and which came first.

**Packet buffers and checksums** (`Pbuf*`, `Checksum`, `IcmpEcho`).  Buffers are linked by `next` pointers, as in the
code.  Every operation keeps the partition of the buffers into pool, allocation cache, free cache and chains, and refines an
operation on flat byte strings.  The checksum of a chain, split anywhere, is the checksum of its bytes (RFC 1071).

**The four algorithms** are in `InitOrder`, `NtfsRuns` and `NtfsRead`, `DnsState`, `DnsTime` and `DnsResolver`, and
`Division`.

## Where a property fails

Where the code does not have a property that it might be expected to have, the model keeps the code; a lemma gives the exact
condition and, where it is not plain from that, another an example.

- A segment that replaces a queued one with the same start is not cut at its successor (`TcpReassembly.InsertedDisjoint`).
  The successor can then be left behind below `rcv_nxt` (`TcpRuns.StrandedSegment`), but need not be
  (`TcpRuns.HealedOverlap`); it is exactly when the data that is handed up ends beyond the start of the first segment that
  stays queued (`TcpRuns.StepOk`).
- A segment that arrives in the middle of a queued one, or reaches beyond a queued one, costs data that was held or has just
  come (`TcpReassembly.LostTail`); `TcpReassembly.KeepsExactly` says when nothing is lost.
- An acknowledgement exactly 2^31 ahead is accepted when nothing is outstanding (`TcpSend.AckTest`,
  `TcpSend.HalfSpaceAck`); it drops everything that waits to be sent (`TcpSend.AckHalf`).
- `tcp_enqueue` that fails after filling up the last segment leaves bytes in the queue that are not counted
  (`TcpSendState.FailedOk`, `TcpSendState.FillStays`).
- `snd_buf` has 16 bits: a FIN enqueued into a full buffer wraps it (`TcpSendState.EnqueuedOk`,
  `TcpSendState.FinWithoutSpace`).  So has `rcv_wnd`: a large `tcp_recved` can close the window instead of opening it
  (`TcpRuns.OpenedIs`, `TcpRuns.ShrinkingWindow`).
- `tcp_abort` of a listening block leaves it on its list (`TcpPcbSteps.AbortOk`, `TcpPcbSteps.AbortListening`), and opening
  a block that is not closed puts it on a second list or twice on one (`TcpPcbState.OpenedOk`).
- The reply to an echo request is wrong when it is zero throughout (`IcmpEcho.ReplyVerifies`, `IcmpEcho.ZeroReply`).
- The 32-bit accumulator of `chksum` can overflow beyond 131074 bytes (`Checksum.ChksumExact`, `Checksum.LostCarry`).
- `pbuf_realloc` of a chain with a pool buffer in front puts every buffer it drops on the pool's free cache; that is right
  exactly when all of them are from the pool (`PbufSteps.PushedAllOk`, `PbufSteps.ForeignBuffer`).
- A direct dependency is initialised before its user unless it reaches the user; an indirect one need not be
  (`InitOrder.IndirectLater`).  An image on no cycle comes after everything it reaches (`InitOrder.AloneAfterAll`), and all
  images do exactly when no two of them reach each other (`InitOrder.AllAfterAll`).
- A run at cluster zero is read as a hole (`NtfsRead.ReadsTrue`, `NtfsRead.ReadsTruly`, `NtfsRead.FirstCluster`).
- A DNS query made in the callback of a failed one can be lost (`DnsTime.LostInCallback`, `DnsTime.LostQuery`), and the table
  can seem full after the 8-bit age counter has wrapped (`DnsState.FullExactly`, `DnsState.UnseenEntry`).
- A DNS answer with a time to live of zero stays for 2^32 ticks (`DnsState.ExpiresOnTime`).
- The comment above `huft_build` promises 2 for a list of zero lengths; the code returns 0 and no table, and the model
  follows the code.  Of an incomplete set the first missing code is flagged invalid exactly when no symbol is unused
  (`InflateFacts.FirstMissingCode`).

## Model

| member | source | states |
|---|---|---|
| HuftBuild.CountLengths | core/inflate.c:310-318 | the count table holds, for every length, the number of symbols with it |
| HuftBuild.MissingCodes | core/inflate.c:346-352 | the number of codes of the longest length that a complete set lacks; negative exactly when the Kraft sum exceeds 1 |
| HuftBuild.KraftFree | core/inflate.c:346-352 | the adjusted counts fill the code space, and nothing was missing exactly when the Kraft sum was 1 |
| HuftBuild.SortValues | core/inflate.c:356-370 | the value list holds the coded symbols by code length, then by number |
| HuftGrow.ChooseBits | core/inflate.c:400-415 | the search for a table size ends with one that its codes fill, within the limits under which tables nest |
| HuftGrow.ShallowCode | core/inflate.c:394-415 | with lengths up to twice the table width, or few enough codes, no code lies more than one table below its parent |
| HuftPlace.FillEntries | core/inflate.c:463-466 | exactly the entries whose index ends in the code are written |
| HuftPlace.BackwardIncrement | core/inflate.c:468-471 | the reversed code becomes the reversal of the next code |
| HuftPlace.Backup | core/inflate.c:473-478 | finished tables leave the stack; the topmost one left contains the next code |
| HuftLoop.BuildTables | core/inflate.c:374-482 | every entry of every table is the one of the code that owns its position, or a link to the table below |
| HuftWalk.WalkDecodes | core/inflate.c:538-547 | walking finished tables at any position of any stream finds the entry of the code that stands there and uses up its bits |
| HuftBuild.TablesDecode | core/inflate.c:356-482 | finished tables of a completed set find the original symbols |
| HuftBuild.Build | core/inflate.c:274-488 | return codes by Kraft sum, in both directions; the tables decode the canonical code of the lengths |
| InflateFacts.Unambiguous | core/inflate.c:538-547 | at most one symbol of a code set stands at a position |
| InflateFacts.AlwaysDecodes | core/inflate.c:538-547 | with a complete set some symbol stands at every position |
| InflateFacts.FirstMissingCode | core/inflate.c:446-461 | what the table holds for the first missing code, and when that is the invalid flag |
| InflateFacts.BlocksFuel | core/inflate.c:957-983 | the meaning of a stream does not depend on the step allowances, once they suffice |
| Inflate.Inflater.GetByte | core/gunzip.c:64 | the next byte of the input, which starts again when it has run out |
| Inflate.Inflater.NeedBits | core/inflate.c:224-225 | the low bits of the buffer are the next unread bits of the input, at least as many as asked for |
| Inflate.Inflater.DumpBits | core/inflate.c:226 | the reading position moves on by as many bits |
| Inflate.Inflater.Flush | core/gunzip.c:116-122 | after it the output holds everything produced so far, and after a full window decoding can go on |
| Inflate.Inflater.PutByte | core/inflate.c:548-557 | one byte is appended to the history; output and window together still hold it |
| Inflate.Inflater.CopyChunk | core/inflate.c:587-605 | one chunk of a match appends the bytes that copying one at a time would |
| Inflate.Inflater.CopyMatch | core/inflate.c:585-606 | a match of any length and distance up to the window size appends what byte-by-byte copying from the history gives |
| Inflate.Inflater.Lookup | core/inflate.c:538-547 | the entry that walking the tables over the stream gives |
| Inflate.Inflater.NextSymbol | core/inflate.c:538-547 | the symbol whose canonical code stands at the reading position |
| Inflate.Inflater.Token | core/inflate.c:536-607 | one literal, end of block or match, as specified |
| Inflate.Inflater.InflateCodes | core/inflate.c:513-618 | a block of codes, result and failures as specified |
| Inflate.Inflater.InflateStored | core/inflate.c:622-674 | a stored block from the next byte boundary on, rejected when the length check fails |
| Inflate.Inflater.InflateFixed | core/inflate.c:678-728 | a block with the fixed codes |
| Inflate.FixedSets | core/inflate.c:692-710 | the fixed literal set is complete, the fixed distance set is not, and lookups in both are sound |
| InflateSpec.LengthRange | core/inflate.c:167-173 | a length code with any extra bits stands for 3 to 258 bytes |
| InflateSpec.DistanceRange | core/inflate.c:174-181 | a distance code with any extra bits reaches back at most one window |
| InflateSpec.LengthForm | core/inflate.c:167-173 | base length and number of extra bits of every length code in closed form |
| InflateSpec.DistanceForm | core/inflate.c:174-181 | the same for distances |
| InflateSpec.BorderForm | core/inflate.c:165-166 | the order of the code length lengths in closed form |
| Inflate.Inflater.ReadClLens | core/inflate.c:781-789 | the code length lengths in their transmission order, the rest zero |
| Inflate.Inflater.ReadLengths | core/inflate.c:804-848 | the literal and distance lengths with their repeat codes, or a failure |
| Inflate.LitSound | core/inflate.c:863-865 | every literal set that passes has sound tables |
| Inflate.DistSound | core/inflate.c:875-876 | every distance set of up to 30 codes that passes has sound tables, by counting leaves |
| Inflate.ClSound | core/inflate.c:793-795 | every set of code length codes has sound tables |
| Inflate.Inflater.InflateDynamic | core/inflate.c:732-906 | a block with its own codes |
| Inflate.Inflater.InflateBlock | core/inflate.c:910-953 | one block of any type, and whether it is the last |
| Inflate.Inflater.UndoLookahead | core/inflate.c:985-991 | whole bytes read ahead are given back |
| Inflate.Inflater.InflateAll | core/inflate.c:957-1002 | a whole stream: result code and output as specified, and the input index at the first byte boundary after the last bit |
| BitWrite.PackedAt | core/inflate.c:224-226 | bits packed into bytes, least significant first, are the stream of those bytes |
| FixedEncode.DecodeFixed | core/inflate.c:692-700 | a literal or length symbol of the fixed code is decoded exactly where its bits in the table of RFC 1951 stand, in all four ranges |
| FixedEncode.DecodeDistance | core/inflate.c:704-710 | the same for the five bits of a distance |
| TokenEncode.TokensDecode | core/inflate.c:536-607 | literals and matches written in any two code sets decode to what they mean |
| TokenEncode.DecodedTokens | core/inflate.c:536-607 | and nothing else decodes |
| TokenEncode.MatchTokenOk | core/inflate.c:167-181 | every length from 3 to 258 and every distance up to the window size can be written |
| DeflateEncode.ItemsRead | core/inflate.c:804-848 | run-length coded code lengths are read as what they expand to |
| DeflateEncode.StandingDecodes | core/inflate.c:910-953 | a stored, fixed or dynamic block is decoded to what it means where it stands |
| DeflateEncode.BlockExactly | core/inflate.c:910-953 | a block is decoded without failure exactly where one stands |
| DeflateEncode.RoundTrip | core/inflate.c:957-983 | every stream of blocks, written as bytes, decodes to what the blocks mean |
| DeflateEncode.TableRoundTrip | core/inflate.c:678-728 | tokens written from the table of RFC 1951 decode to what they mean |
| DeflateEncode.BytesRoundTrip | core/inflate.c:622-728 | every byte string comes back from literals, and every short one from a stored block |
| History.CopySplit | core/inflate.c:585-606 | a copy in parts is the copy of the whole |
| History.CopyBlock | core/inflate.c:589-594 | a block move is right when the distance is at least its length |
| TcpSeq.Compare | sys/net/tcp.h:47-50 | near a common base the cyclic comparisons are those of the distances |
| TcpReassembly.InsertedOk | net/tcp_input.c:896-1029 | every insertion keeps the queue strictly increasing from rcv_nxt and in agreement with the stream |
| TcpReassembly.InsertedDisjoint | net/tcp_input.c:930-944 | and its segments disjoint, exactly unless a longer segment replaces one and reaches into the next |
| TcpReassembly.InsertedHolds | net/tcp_input.c:896-1029 | which positions of the stream the queue holds after an insertion |
| TcpReassembly.KeepsExactly | net/tcp_input.c:896-1029 | when an insertion loses nothing |
| TcpReassembly.LostTail | net/tcp_input.c:978-1008 | one that does |
| TcpReassembly.ReadyOk | net/tcp_input.c:856-887 | the queued segments that continue the data carry the stream from there |
| TcpReassembly.ReadyToGap | net/tcp_input.c:856-887 | disjoint segments are handed up to the first position that is not held |
| TcpReassembly.Rebased | net/tcp_input.c:856-887 | what stays queued is right for the new rcv_nxt exactly when its first segment starts above it |
| TcpReassembly.DisjointStrandsNone | net/tcp_input.c:856-887 | it does so when the queued segments were disjoint |
| TcpReceive.Trim | net/tcp_input.c:965-970 | a segment cut at a sequence number |
| TcpReceive.Insert | net/tcp_input.c:896-1029 | the walk along the queue inserts as specified |
| TcpReceive.Receiver.TakeReady | net/tcp_input.c:856-887 | the segments that are in sequence now are handed up, in order |
| TcpReceive.Receiver.Accept | net/tcp_input.c:810-893 | an in-order segment hands up exactly the stream between the old and the new rcv_nxt; when the queue stays right |
| TcpReceive.Receiver.Receive | net/tcp_input.c:749-1043 | any segment that agrees with the stream: what is handed up, how the window closes, when the queue stays right and when disjoint |
| TcpRuns.OpenedIs | net/tcp.c:312-313 | when the window opens by the amount processed |
| TcpRuns.ShrinkingWindow | net/tcp.c:312-313 | a window that closes instead |
| TcpRuns.StepOk | net/tcp_input.c:749-1043 | one event hands up the stream up to the new rcv_nxt, and keeps the invariant exactly when it leaves no queued segment behind |
| TcpRuns.RunDelivers | net/tcp_input.c:749-1043 | over every run the application gets the stream without gap, repetition or reordering as long as no segment is left behind, and when the invariant holds at the end |
| TcpRuns.NoReplacementNoneLeft | net/tcp_input.c:749-1043 | from disjoint segments none is left behind over any run without a replacement into the successor |
| TcpRuns.StrandedSegment | net/tcp_input.c:930-944 | an example of the overlap and of what follows from it |
| TcpRuns.HealedOverlap | net/tcp_input.c:930-970 | an overlap from which nothing follows |
| TcpSplit.SplitOk | net/tcp_output.c:158-263 | the new segments carry exactly the caller's bytes or flag and follow one another; all but the last are full, none is longer |
| TcpSplit.FillIs | net/tcp_output.c:142-144 | the last unsent segment takes as much as its buffer and the segment size allow, and no more |
| TcpSplit.AppendedOk | net/tcp_output.c:265-305 | joining them to the queue keeps contents, contiguity and buffer count |
| TcpSplit.AppendedShort | net/tcp_output.c:281-285 | joining makes no segment longer than the segment size |
| TcpSend.MakeSegments | net/tcp_output.c:158-263 | the loop makes those segments, and fails exactly when the queue would get too long |
| TcpSendState.EnqueuedOk | net/tcp_output.c:122-310 | a successful call appends the caller's bytes in order and keeps the invariant; when buffer space plus flight size is kept |
| TcpSendState.FinWithoutSpace | net/tcp_output.c:307-310 | a call after which it is not |
| TcpSendState.FailedOk | net/tcp_output.c:122-156 | a failing call keeps the invariant exactly when it filled nothing up |
| TcpSendState.FillStays | net/tcp_output.c:122-156 | a call that leaves bytes behind |
| TcpSendState.EnqueuedShort | net/tcp_output.c:122-305 | neither a successful nor a failing call makes a segment longer than the segment size |
| TcpSend.Sender.Enqueue | net/tcp_output.c:74-331 | when it succeeds, and the state after it in every case; no segment gets too long |
| TcpSendState.SentOk | net/tcp_output.c:342-379 | sending a segment changes neither queue contents nor order, and moves the highest sent number as it should |
| TcpSend.Sender.Output | net/tcp_output.c:333-380 | exactly the segments at the front that fit the window leave, in order, and the next number to send is the end of the last of them |
| TcpSend.FitsExactly | net/tcp_output.c:342 | a segment fits exactly when its data ends at most a window beyond the last acknowledgement |
| TcpSend.Sender.Rexmit | net/tcp_output.c:516-538 | everything unacknowledged is to be sent again, and exactly what fits goes out; both queues together stay the same |
| TcpSend.AckTest | net/tcp_input.c:603 | which acknowledgement numbers are accepted |
| TcpSend.HalfSpaceAck | net/tcp_input.c:603 | one that is accepted though nothing was sent |
| TcpSend.DropAcked | net/tcp_input.c:651-686 | the loop drops exactly the segments that end at or below the number |
| TcpSendState.AckedOk | net/tcp_input.c:603-687 | an acknowledgement drops a prefix of what is queued and keeps the invariant; when buffer space plus flight size is kept |
| TcpSend.Sender.Ack | net/tcp_input.c:603-687 | whether the number is accepted, the state after it, when that is right, and the next number to send |
| TcpSend.AckHalf | net/tcp_input.c:603-687 | what an acknowledgement 2^31 ahead drops when nothing is outstanding |
| TcpSendState.RunKeeps | net/tcp_output.c:122-379 | over every run the queues are contiguous and carry the unacknowledged end of everything enqueued |
| TcpSendState.RunConserves | net/tcp_output.c:307-310 | over every run in which a flag finds room, buffer space plus flight size never changes |
| TcpSendState.RunShort | net/tcp_output.c:122-379 | over every run no queued segment is longer than the segment size |
| TcpPcbState.RemovedOk | net/tcp.c:931-945 | removing a block keeps the lists right exactly when it is taken off the list of its state |
| TcpPcbState.TimeWaitedOk | net/tcp_input.c:472-475 | entering TIME-WAIT keeps the lists right and leaves no segments |
| TcpPcbState.OpenedOk | net/tcp.c:282-290 | opening a block keeps the lists right exactly when it is closed |
| TcpPcbSteps.CloseOk | net/tcp.c:107-161 | closing keeps the lists right and follows the diagram |
| TcpPcbSteps.AbortOk | net/tcp.c:170-214 | aborting keeps the lists right exactly when the block is not listening |
| TcpPcbSteps.AbortListening | net/tcp.c:170-214 | a listening block that stays on its list |
| TcpPcbSteps.NextIsEdge | net/tcp_input.c:326-528 | every state a segment leads to is an edge of the diagram |
| TcpMeaning.NextMeans | net/tcp_input.c:326-528 | the transition is the one that what has happened to the connection calls for |
| TcpMeaning.StateMeans | net/tcp_input.c:326-528 | each state says exactly which FINs were sent, acknowledged and received |
| TcpPcbSteps.ProcessOk | net/tcp_input.c:275-531 | processing a segment keeps the lists right, but for the block that is finished |
| TcpPcbSteps.HandleOk | net/tcp_input.c:174-245 | processing and clean-up together keep the lists right and follow the diagram |
| TcpMeaning.HandleMeans | net/tcp_input.c:174-245 | the state after a segment and the clean-up behind it, from what has happened |
| TcpPcbSteps.ChildMatches | net/tcp_input.c:356-361 | the block made for a request gets exactly the segments of that connection |
| TcpPcbSteps.ResetInWindow | net/tcp_input.c:297-306 | a reset is acceptable exactly within the receive window |
| TcpPcbSteps.DemuxOk | net/tcp_input.c:88-151 | the block found matches, connections come before listeners, and nothing is found only when nothing matches |
| TcpPcbSteps.InputLocal | net/tcp_input.c:88-245 | a segment changes no other block, and makes a block only for a listener |
| TcpPcbSteps.SlowTimerOk | net/tcp.c:439-598 | a tick removes exactly the connections that have expired and the blocks that have waited long enough |
| TcpPcbSteps.StepOk | sys/net/tcp.h:297-302 | of all events only opening a block that is not closed and aborting one that listens lose the invariant |
| TcpPcbSteps.RunOk | sys/net/tcp.h:297-302 | over every run the lists are disjoint, duplicate-free and match the states, TIME-WAIT holds no segments, and every block follows the diagram |
| TcpMeaning.StepMeans | net/tcp_input.c:275-531 | after every event the state of every block is the one that what has happened to it calls for |
| TcpMeaning.RunMeans | net/tcp_input.c:275-531 | over every run it is |
| TcpPcb.Unlink | sys/net/tcp.h:316-330 | takes one block off a list |
| TcpPcb.Tcp.PcbRemove | net/tcp.c:931-945 | the state and the lists after removal |
| TcpPcb.Tcp.Close | net/tcp.c:107-161 | the state and the lists after closing |
| TcpPcb.Tcp.Abort | net/tcp.c:170-214 | the state and the lists after aborting, and when they are right |
| TcpPcb.Tcp.Find | net/tcp_input.c:88-151 | the search, with the block found moved to the front |
| TcpPcb.Tcp.Process | net/tcp_input.c:275-531 | the state machine does what the transition table says |
| TcpPcb.Tcp.Input | net/tcp_input.c:88-245 | a segment from search to clean-up; the lists stay right |
| TcpPcb.Tcp.Connect | net/tcp.c:330-380 | an active open, refused without address or port; when the lists are right after it |
| TcpPcb.Tcp.OpenPassive | net/tcp.c:282-290 | a passive open, nothing for a block that listens already; when the lists are right after it |
| TcpPcb.Tcp.Create | net/tcp.c:738-771 | a new block, on no list |
| TcpPcb.Tcp.NewPort | net/tcp.c:73-99 | the first free port in cyclic order after the last one given out |
| TcpPcb.Tcp.SlowTimer | net/tcp.c:439-598 | both list walks, with removal on the way |
| Checksum.Chksum | net/inet.c:14-33 | the one's complement value of the 32-bit sum of words |
| Checksum.ChksumExact | net/inet.c:20-32 | when that is the one's complement value of the true sum |
| Checksum.LostCarry | net/inet.c:20-32 | 131075 bytes for which it is not |
| Checksum.SumBound | net/inet.c:20-22 | up to 131074 bytes the accumulator cannot overflow |
| Checksum.InetChksum | net/inet.c:82-90 | the complement of it |
| Checksum.AccStep | net/inet.c:100-109 | one more buffer, at an even or an odd offset |
| Checksum.InetChksumPbuf | net/inet.c:92-115 | the checksum of the bytes of the chain, split anywhere |
| Checksum.InetChksumPseudo | net/inet.c:41-73 | the checksum of the pseudo header followed by those bytes |
| Checksum.StoredVerifies | net/inet.c:82-90 | a checksum stored in a zeroed even field makes recomputation give zero |
| IcmpEcho.Echo | net/icmp.c:49-73 | which requests are answered, and the reply made in place |
| IcmpEcho.ReplyChanges | net/icmp.c:64-73 | nothing changes but the type and the checksum |
| IcmpEcho.ReplyCongruent | net/icmp.c:67-73 | the sum of the message stays the same modulo 65535 |
| IcmpEcho.ReplyVerifies | net/icmp.c:67-73 | when the reply has a right checksum |
| IcmpEcho.ZeroReply | net/icmp.c:67-73 | a request whose reply has not |
| PbufSteps.FromCacheOk | net/pbuf.c:57-62 | taking a buffer from the cache keeps the partition and the count |
| PbufSteps.FromPoolOk | net/pbuf.c:73-83 | taking a buffer from the pool keeps them too |
| PbufSteps.PushedOk | net/pbuf.c:316-325 | giving a buffer to the free cache keeps them exactly when it is from the pool |
| PbufSteps.PushedAllOk | net/pbuf.c:316-325 | giving a whole chain to the free cache keeps them exactly when all of its buffers are from the pool |
| PbufSteps.ForeignBuffer | net/pbuf.c:312-325 | a chain of two of which a buffer from general memory gets into the pool |
| PbufSteps.DroppedOk | net/pbuf.c:422-432 | giving a buffer back to memory keeps them |
| PbufSteps.RefreshedOk | net/pbuf.c:254-267 | moving the free cache to the pool neither breaks nor mends them |
| PbufSteps.ReturnedOk | net/pbuf.c:94-109 | giving a chain back to the allocation cache keeps them |
| PbufSteps.JoinedOk | net/pbuf.c:491-499 | linking two chains keeps them |
| PbufSteps.CutOk | net/pbuf.c:312-315 | cutting a chain keeps them |
| Pbuf.Pbufs.constructor | net/pbuf.c:24-51 | all buffers are in the pool |
| Pbuf.Pbufs.PoolAlloc | net/pbuf.c:53-92 | a buffer exactly when one is available, and it is in no other place |
| Pbuf.Pbufs.PoolFree | net/pbuf.c:94-109 | a chain goes back to the allocation cache |
| Pbuf.Pbufs.AllocPool | net/pbuf.c:160-206 | a chain of the size asked for exactly when there are enough buffers; half-way failure leaves the count and the chains as they were |
| Pbuf.Pbufs.AllocRw | net/pbuf.c:208-219 | one buffer of the size asked for |
| Pbuf.Pbufs.Refresh | net/pbuf.c:248-276 | the free cache goes behind the pool unless an allocation is under way |
| Pbuf.Pbufs.Release | net/pbuf.c:407-436 | every buffer of a chain is given back to where it belongs |
| Pbuf.Pbufs.Free | net/pbuf.c:394-442 | one owner less, or the whole chain given back; other chains keep their bytes |
| Pbuf.Pbufs.Realloc | net/pbuf.c:290-360 | the chain holds the first bytes of what it held, other chains keep theirs; the partition is kept exactly when no buffer from general memory is dropped behind a pool buffer in front |
| Pbuf.Pbufs.Chain | net/pbuf.c:491-499 | concatenation, and the total length of it |
| Pbuf.Pbufs.Dechain | net/pbuf.c:508-518 | split after the first buffer, with both total lengths |
| Pbuf.Pbufs.Dup | net/pbuf.c:527-548 | a copy in one buffer |
| Pbuf.Pbufs.CopyPartial | net/pbuf.c:600-636 | a slice, as far as there are bytes; the rest of the destination unchanged |
| InitOrder.WalkOk | core/elf_so/rldelf.c:1035-1050 | the walk lists unmarked images it reaches, once each, and leaves no dependency of them unmarked; a dependency comes first or reaches its user |
| InitOrder.DependenciesOk | core/elf_so/rldelf.c:1053-1076 | the list holds exactly what the image reaches |
| InitOrder.AfterReached | core/elf_so/rldelf.c:1035-1050 | an image comes after all it reaches exactly when it comes after those of them that reach it |
| InitOrder.AloneAfterAll | core/elf_so/rldelf.c:1035-1076 | an image on no cycle comes after all it reaches |
| InitOrder.AllAfterAll | core/elf_so/rldelf.c:1035-1076 | all images do exactly when no two of them reach each other |
| InitOrder.IndirectLater | core/elf_so/rldelf.c:1035-1050 | an indirect dependency that comes later |
| InitOrder.Loader.TopologicalSort | core/elf_so/rldelf.c:1035-1050 | the recursion terminates and does that walk |
| InitOrder.Loader.GetDependencies | core/elf_so/rldelf.c:1053-1076 | everything reached, each image once and in that order, the image itself last if asked for |
| NtfsRuns.ReadRun | drv/fs/fsys_ntfs.c:252-272 | one run: length, signed offset, hole |
| NtfsRuns.RoundTrip | drv/fs/fsys_ntfs.c:252-272 | encoded run lists, with relative and negative cluster numbers and holes, are read back |
| NtfsRuns.RunList.Rewind | drv/fs/fsys_ntfs.c:231-237 | the cursor stands before the first run |
| NtfsRuns.RunList.GetNextRun | drv/fs/fsys_ntfs.c:239-278 | the next run, or the end |
| NtfsRuns.RunList.GetRun | drv/fs/fsys_ntfs.c:508-526 | what the stateless expansion gives, from any position of the cursor |
| NtfsRead.ReadsTrue | drv/fs/fsys_ntfs.c:523 | when the code reads what the run list means |
| NtfsRead.ReadsTruly | drv/fs/fsys_ntfs.c:523-600 | what is read is what the run list means, for every disk, exactly when no run of the range starts at cluster zero |
| NtfsRead.FirstCluster | drv/fs/fsys_ntfs.c:523 | a byte it reads as zero |
| NtfsRead.ReadRuns | drv/fs/fsys_ntfs.c:573-600 | exactly the slice of the flat attribute asked for, holes as zeros, as far as nothing stops the reading; all of it exactly when every byte asked for can be read |
| NtfsRead.ReadResident | drv/fs/fsys_ntfs.c:563-571 | the slice of a resident attribute |
| DnsState.FullExactly | net/dns.c:631-659 | when no entry is found for a new query |
| DnsState.UnseenEntry | net/dns.c:631-659 | a completed entry that goes unseen |
| DnsState.ExpiresOnTime | net/dns.c:459-468 | a completed entry goes after as many ticks as its time to live, exactly when that is not zero |
| DnsState.RunDated | net/dns.c:664-676 | over every run the age of an entry is the number of its query modulo 256 |
| DnsState.TakesOldest | net/dns.c:631-659 | until the age counter wraps, a new query takes the completed entry with the oldest query |
| DnsState.RunOk | net/dns.c:408-606 | over every interleaving no query is called back twice |
| DnsTime.PerServerIs | net/dns.c:429-457 | 1 + R(R-1)/2 ticks for each server |
| DnsTime.OneTick | net/dns.c:429-457 | a tick takes one off the time left; the last one flushes |
| DnsTime.StaysOpen | net/dns.c:408-489 | until then an unanswered query stays open and is not called back |
| DnsTime.TimesOut | net/dns.c:429-447 | the last tick frees the entry, and calls the query back, once, exactly when it has a callback |
| DnsTime.NeverCalled | net/dns.c:408-606 | a query without a callback is never called back, over any run |
| DnsTime.ReplyIs | net/dns.c:526-606 | a reply calls its query back exactly when it has a callback, and completes or flushes its entry |
| DnsTime.NoReply | net/dns.c:530-532 | a message for no asking entry does nothing |
| DnsTime.CalledExactly | net/dns.c:408-606 | over every run a query is called back once if it has a callback and is answered or times out, and otherwise not at all |
| DnsTime.NewQueryTime | net/dns.c:664-672 | a new query has seven ticks for each server configured |
| DnsTime.LostInCallback | net/dns.c:599-606 | on which tables a query made in the callback of a failed one is lost |
| DnsTime.LostForever | net/dns.c:408-606 | it is then never called back, over any run |
| DnsTime.LostQuery | net/dns.c:599-606 | one that is |
| DnsResolver.Resolver.FindSlot | net/dns.c:631-659 | the entry for a new query |
| DnsResolver.Resolver.Enqueue | net/dns.c:624-676 | whether a query is accepted, and the table after it |
| DnsResolver.Resolver.CheckEntry | net/dns.c:408-476 | one entry at a tick |
| DnsResolver.Resolver.CheckEntries | net/dns.c:481-489 | all entries at a tick |
| DnsResolver.Resolver.Receive | net/dns.c:526-606 | a reply |
| Division.Step | cpu/i386/asm.c:153-163 | each round takes the next bit of the dividend |
| Division.NoneLost | cpu/i386/asm.c:153-155 | no bit is shifted out of remainder or quotient |
| Division.DivAndMod64 | cpu/i386/asm.c:135-166 | quotient and remainder of every pair; zero for division by zero |

## Left out

- Inflate.Inflater.InflateAll: is stated for streams whose decoding ends and never enters a table for an all-zero set or an entry that `huft_build` left unset, because the code reads undefined memory there.
- Inflate.Inflater.GetByte: reads the input as endless, from the start again after its end, as `fill_inbuf` does; the error message it prints is not modelled.
- DEFLATE: gzip header, length and CRC, memory exhaustion in `huft_build` (return 3), `huft_free`; the local copies of bit buffer and window position are the fields themselves; `memcpy` on overlapping regions is one simultaneous copy.
- TcpReceive.Receiver.Receive: segments carry no FIN and no SYN, and have at most 65535 bytes; `tcp_seg_copy` does not fail.
- TcpSend.Sender.Output: takes any window; congestion control, round-trip estimation and the sending of bare acknowledgements are not modelled.
- TcpSend.Sender.Enqueue: memory exhaustion is not modelled, only the limits on buffer space and queue length; a flag is sent without data, options only with a flag, and no data after a FIN.
- TcpSend.Sender.Ack: the window update before it and duplicate acknowledgements are not modelled.
- TcpPcb.Tcp.Process: what the data path leaves in a block is arbitrary; a callback that calls back into TCP is a step of its own.
- TcpPcb.Tcp.Connect: the choice of a local port and of an initial sequence number is not part of it.
- TcpPcb.Tcp.SlowTimer: the keepalive abort and the poll callback are not modelled; a block that is freed counts as CLOSED.
- TcpPcb.Tcp.NewPort: some port must be free, because otherwise the search does not end.
- TCP: binding, delayed acknowledgements, resets sent to strangers, option parsing, the socket layer.
- Pbuf.Pbufs.Realloc: with a buffer from general memory in front, no buffer behind it has another owner; read-only buffers, `pbuf_header`, `pbuf_spare`, `pbuf_linearize` and `pbuf_cow` are not modelled.
- Pbuf.Pbufs.CopyPartial: says what is copied for buffers shorter than 64 KiB, because the length copied from one buffer is kept in 16 bits.
- Checksum: memory is read as little-endian words, as on the i386.
- IcmpEcho.Echo: the first four bytes of the message lie in the first buffer, because the code reads and writes them there; the checks of the destination address and the swap of the addresses are not modelled.
- InitOrder.Loader.GetDependencies: at most 255 images, the size of the list in the code; loading and relocation are not modelled.
- NtfsRuns.RunList.GetRun: fields of a run have at most three bytes, because a fourth overflows the code's multiplier; cluster numbers are unbounded integers and no request lies below the start of the list.
- NtfsRead.ReadRuns: no run lies at a negative cluster number; attributes continued through an attribute list, compression, and everything above `read_attribute` are not modelled; the cluster size is a multiple of 512.
- DNS: building queries, comparing names and parsing answers; a reply is an error or an address with its time to live.
- Architecture code other than `divandmod64`, consoles, terminals, the debugger, PPP, DHCP, and the rest of the kernel: no algorithm to state a hard property of, or dependence on services that are not part of the repository.
