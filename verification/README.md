# Verified models of the camera broadcast server and the WebSocket++ code it runs on

The repository is a camera server that broadcasts images over WebSocket++. This project models, in Dafny, the parts of it
whose correctness rests on byte and state arithmetic, and proves that they do what their documentation and the standards
they implement ask for.

| file | what it models |
|---|---|
| `Md5Block.dfy`, `Md5.dfy`, `Md5Example.dfy` | the MD5 block transformation with its 64 operations written out, the streaming engine around it (buffer, wrapping bit counter, padding), and a digest of RFC 1321, appendix A.5, worked out step by step |
| `Broadcast.dfy` | the broadcast server: `BroadcastLog` says what it is for without threads, `BroadcastServer` interleaves its threads step by step, `BroadcastSections` runs the bodies of its critical sections |
| `Utf8Validator.dfy` | the packed-table UTF-8 automaton, the streaming validator and the whole-string check (RFC 3629) |
| `MachineWord.dfy`, `FrameMasking.dfy` | machine words as bytes in memory; byte, word and circular masks with prepared keys (RFC 6455, section 5.3) |
| `ByteOrder.dfy`, `FrameHeader.dfy` | byte order conversion; frame headers written and read (RFC 6455, section 5.2) |
| `Base64.dfy` | encoder and decoder (RFC 4648) |
| `Uri.dfy` | URI parser and printer |
| `CameraServer.dfy` | the mode controller of the camera server: commands, ticks and the text quota |
| `Close.dfy` | close codes and reasons (RFC 6455, sections 5.5.1 and 7.4) |
| `Bytes.dfy` | byte strings and concatenation |

`dafny verify dfyconfig.toml` checks everything.

## How to read it

Code that changes things step by step is imperative here too: the MD5 state, the validator, the byte order cache, the
header structs, the URI object and both servers are classes, the masks write through arrays, and every loop of the source
is a loop. Each such method ends in a specification function (`Digest`, `Run`, `Mask`, `Encoded`, `Decoded`, `ParseUri`,
`Sends`, ...), and what the source promises is proved of that function, mostly against a second definition that shares
nothing with the code: `WellFormed` is "the encoding of some scalar sequence", not a state machine; `Mask` knows nothing
of words; `Connections` knows nothing of threads.

Some choices that matter:

- Byte order and word size (4 or 8 bytes) are parameters of every member they can influence. A union is the bytes it
  holds, with functions that read them as an integer. 8-, 32- and 64-bit integers are bit vectors, or numbers reduced
  modulo their range; the MD5 counter wraps and carries as in the code.
- The broadcast server's handlers may run on any number of threads. A step is one lock, unlock, push, pop, wait, wake-up
  or send; `wait` may also wake up for no reason. A `send` appends to a log. Refinement, the absence of lock cycles and of
  lost wake-ups, and delivery are statements about every interleaving.
- The comment on `word_mask_circ` says that the output is written up to a whole number of words
  (websocketcpp/websocketpp/frame.hpp:737-767). The code writes exactly `length` bytes, and `WordMaskCirc` follows the
  code.
- `atoi` promises nothing for numbers beyond the range of `int`. What it returns then is a parameter, so the theorems about
  URIs hold whatever it is.
- In the camera server the handle lookup is an input of each tick, `b` is the handle of the last action taken off the
  queue, and the quota `max` is arbitrary where the code has the constant 1.

## What turned out not to hold everywhere

- Parsing what `str` prints does not always give the URI back. `Uri.RoundTripIffPrintable` gives the exact condition for
  arbitrary parts; `Uri.BracketedAddressIsLost` is an address for which it fails, because `str` drops the brackets.
- Re-encoding decoded base64 gives the alphabet prefix back exactly when it is canonical
  (`Base64.EncodeInvertsDecodeIffCanonical`). The code accepts nonzero unused bits and a single leftover character, and
  `Base64.UnusedBitsAreLost` and `Base64.LoneCharacterIsLost` are strings that do not come back.
- The two circular masks agree exactly on prepared keys of byte period four (`FrameMasking.MasksAgreeIffPeriodFour`); one
  rotates by the length modulo the word size, the other by the length modulo four.

## Model

| member | source | states |
|---|---|---|
| Md5Block.Round1 | websocketcpp/websocketpp/common/md5.hpp:236-260 | the first sixteen written-out operations, with registers changing roles, are steps 0 to 15 of the table form of RFC 1321 for any step operation |
| Md5Block.Round2 | websocketcpp/websocketpp/common/md5.hpp:262-286 | the same for steps 16 to 31: word order, shifts and constants are those of round two |
| Md5Block.Round3 | websocketcpp/websocketpp/common/md5.hpp:288-312 | the same for steps 32 to 47 |
| Md5Block.Round4 | websocketcpp/websocketpp/common/md5.hpp:314-338 | the same for steps 48 to 63 |
| Md5Block.GatherWords | websocketcpp/websocketpp/common/md5.hpp:184-232 | the words a little-endian host reads in place, and those a big-endian host adds up, are the little-endian ones of the block |
| Md5Block.LittleEndianHostWord | websocketcpp/websocketpp/common/md5.hpp:196-209 | four bytes that a little-endian host reads where they lie are the little-endian word |
| Md5Block.WordIsSum | websocketcpp/websocketpp/common/md5.hpp:228-229 | the sum of shifted bytes a big-endian host computes never carries: it is the little-endian word |
| Md5Block.AllRounds | websocketcpp/websocketpp/common/md5.hpp:236-338 | four rounds in a row are the 64 steps of RFC 1321, section 3.4 |
| Md5Block.Process | websocketcpp/websocketpp/common/md5.hpp:170-347 | `md5_process` turns the registers into the table-form compression of the registers with the block, on either byte order |
| Md5Block.ChooseByFirst | websocketcpp/websocketpp/common/md5.hpp:239 | bit by bit, F takes y where x has ones and z elsewhere |
| Md5Block.ChooseByLast | websocketcpp/websocketpp/common/md5.hpp:265 | bit by bit, G takes x where z has ones and y elsewhere |
| Md5Block.ParityOfThree | websocketcpp/websocketpp/common/md5.hpp:291 | H is the parity of the three bits |
| Md5Block.ExclusiveOr | websocketcpp/websocketpp/common/md5.hpp:317 | I is y xor (x or not z) in every bit |
| Md5Block.RotateMovesBits | websocketcpp/websocketpp/common/md5.hpp:234 | rotating by n moves every bit n places up, round the end of the word |
| Md5Block.SetWordSums | websocketcpp/websocketpp/common/md5.hpp:240-242 | an operation adds four words modulo 2^32, rotates the sum and adds b modulo 2^32 |
| Md5Block.AddRegistersSums | websocketcpp/websocketpp/common/md5.hpp:340-346 | the registers before the block are added to those after it, modulo 2^32 |
| Md5Example.MessageDigest | websocketcpp/websocketpp/common/md5.hpp:170-412 | MD5("message digest") is f96b697d7cb7938d525a2f31aaf161d0, as RFC 1321, appendix A.5 has it: constants, shifts, word order, initial registers, padding and output order are those of the standard |
| Md5.FoldAppend | websocketcpp/websocketpp/common/md5.hpp:384-386 | folding the block transformation over a concatenation is folding over its parts one after the other |
| Md5.HoldsPartial | websocketcpp/websocketpp/common/md5.hpp:372-382 | data that does not fill the block only extends the live part of the buffer |
| Md5.HoldsBlock | websocketcpp/websocketpp/common/md5.hpp:372-386 | data that completes the block leaves registers one compression further and nothing live |
| Md5.CounterOffset | websocketcpp/websocketpp/common/md5.hpp:360 | the buffer position read off the low counter word is the message length modulo 64, however often the counter has wrapped |
| Md5.CounterAdvances | websocketcpp/websocketpp/common/md5.hpp:361-370 | the two-word update with its carry test keeps counter = 8 * length modulo 2^64 for every amount appended |
| Md5.LengthField | websocketcpp/websocketpp/common/md5.hpp:403-405 | the eight bytes taken from the counter are the 64-bit little-endian length field of RFC 1321, section 3.2 |
| Md5.PadDistance | websocketcpp/websocketpp/common/md5.hpp:406-407 | the pad length computed in 32-bit arithmetic is one more than the fewest zeros that reach 56 modulo 64 |
| Md5.State.constructor | websocketcpp/websocketpp/common/md5.hpp:349-355 | initialisation establishes the representation invariant for the empty message, whatever the buffer holds |
| Md5.State.AddToCount | websocketcpp/websocketpp/common/md5.hpp:366-370 | after the update the counter counts the longer message |
| Md5.State.Offset | websocketcpp/websocketpp/common/md5.hpp:360 | returns the length so far modulo 64 |
| Md5.State.TopUp | websocketcpp/websocketpp/common/md5.hpp:372-382 | takes a prefix of the data; either the data is used up and live bytes are exact, or the block was absorbed and nothing is live |
| Md5.State.AbsorbBlocks | websocketcpp/websocketpp/common/md5.hpp:384-386 | absorbs every whole block left and leaves fewer than 64 bytes of data |
| Md5.State.KeepTail | websocketcpp/websocketpp/common/md5.hpp:388-390 | the remaining bytes become the live part of the buffer |
| Md5.State.Feed | websocketcpp/websocketpp/common/md5.hpp:372-390 | all the data has been added to the message and the registers hold its whole blocks |
| Md5.State.Append | websocketcpp/websocketpp/common/md5.hpp:357-391 | keeps the representation invariant and extends the message by exactly the data, for every append with offset + nbytes in size_t |
| Md5.State.PadLength | websocketcpp/websocketpp/common/md5.hpp:406-407 | the length of the padding, between 1 and 64 |
| Md5.CountBytes | websocketcpp/websocketpp/common/md5.hpp:403-405 | the saved bytes of the counter are the length field of the message |
| Md5.OutputBytes | websocketcpp/websocketpp/common/md5.hpp:410-411 | the sixteen shifted bytes are the registers A to D, low-order byte first |
| Md5.OutputIsLittleEndian | websocketcpp/websocketpp/common/md5.hpp:410-411 | a register is recovered from its four output bytes by the word order of the block transformation |
| Md5.State.Finish | websocketcpp/websocketpp/common/md5.hpp:393-412 | returns the left fold of the compression over the padded message, written out |
| Md5.SameMessageSameState | websocketcpp/websocketpp/common/md5.hpp:357-391 | two engines fed the same bytes, cut differently, agree on counter, registers and live buffer, though stale bytes may differ |
| Md5.HashString | websocketcpp/websocketpp/common/md5.hpp:415-429 | returns the one-shot digest of the string |
| Md5.HashChunks | websocketcpp/websocketpp/common/md5.hpp:349-412 | any way of cutting a message into appends, each with offset + nbytes in size_t, gives the one-shot digest of the whole |
| BroadcastLog.ConnectionsAreSubscribed | websocketcpp/examples/broadcast_server/broadcast_server.cpp:117-122 | a handle is in the connection set after a log exactly when some subscription of it was not followed by an unsubscription |
| BroadcastLog.EachMessageSentOnceToSubscribers | websocketcpp/examples/broadcast_server/broadcast_server.cpp:123-129 | a message of the log goes exactly once to each handle subscribed before it, and nothing else is sent |
| BroadcastLog.SendsFollowTheLog | websocketcpp/examples/broadcast_server/broadcast_server.cpp:123-129 | sends follow the enqueue order and, within a message, the order of the handles |
| BroadcastServer.LocksStep | websocketcpp/examples/broadcast_server/broadcast_server.cpp:75-133 | in every step each lock stays with exactly the thread whose position says it holds it |
| BroadcastServer.WakeupStep | websocketcpp/examples/broadcast_server/broadcast_server.cpp:93-110 | in every step, spurious wake-ups included, a consumer asleep on a non-empty queue has a notification coming |
| BroadcastServer.HistoryStep | websocketcpp/examples/broadcast_server/broadcast_server.cpp:75-133 | in every step enqueued = processed ++ in flight ++ queued, the connections are the fold of the processed actions and the sends those of the log |
| BroadcastServer.Preserved | websocketcpp/examples/broadcast_server/broadcast_server.cpp:75-133 | the three invariants together survive every enabled step |
| BroadcastServer.RunKeepsInvariant | websocketcpp/examples/broadcast_server/broadcast_server.cpp:75-133 | they hold in every state of every interleaving of any number of threads |
| BroadcastServer.NoLockCycle | websocketcpp/examples/broadcast_server/broadcast_server.cpp:75-133 | in every run no thread waits for a lock while holding one, and the two locks are never held together |
| BroadcastServer.NoLostWakeupInAnyRun | websocketcpp/examples/broadcast_server/broadcast_server.cpp:93-110 | in every run, if the consumer sleeps on a non-empty queue then a thread has pushed and not yet notified |
| BroadcastServer.PushEnqueuesLastCall | websocketcpp/examples/broadcast_server/broadcast_server.cpp:75-101 | in every run a push enqueues exactly the action that the thread's handler was last called with |
| BroadcastServer.OnlyPushEnqueues | websocketcpp/examples/broadcast_server/broadcast_server.cpp:75-133 | no other step enqueues anything |
| BroadcastServer.IdleThreadsCanBeCalled | websocketcpp/examples/broadcast_server/broadcast_server.cpp:75-101 | in every run each thread of the start can, whenever it is idle, be called with every action |
| BroadcastServer.CallsAreEnqueuedOrCarried | websocketcpp/examples/broadcast_server/broadcast_server.cpp:75-101 | at every point of every run each action was called as often as it is enqueued or still carried by a thread |
| BroadcastServer.BlockedOnlyOnQueueLock | websocketcpp/examples/broadcast_server/broadcast_server.cpp:75-133 | a thread has no step exactly when it wants the queue lock and another thread holds it; nobody waits for the connection lock |
| BroadcastServer.RunRefinesLog | websocketcpp/examples/broadcast_server/broadcast_server.cpp:103-133 | at every point of every run the sends are a prefix of those of the sequential fold over the enqueued log, and connections are the fold so far |
| BroadcastServer.NothingSentWrongly | websocketcpp/examples/broadcast_server/broadcast_server.cpp:123-129 | in no run is a message sent twice to a handle, or to a handle not subscribed when it was enqueued |
| BroadcastServer.ProcessedSentExactlyOnce | websocketcpp/examples/broadcast_server/broadcast_server.cpp:110-130 | at every point of every run, each message processed so far has gone exactly once to exactly the handles subscribed before it |
| BroadcastServer.PushQueues | websocketcpp/examples/broadcast_server/broadcast_server.cpp:96-99 | the push step of a handler queues its action and touches nothing else that is shared |
| BroadcastServer.RoundOfSteps | websocketcpp/examples/broadcast_server/broadcast_server.cpp:110-130 | once the consumer finds the queue not empty, its steps from the pop to the release of the second lock amount to one round and leave both locks free |
| BroadcastServer.InternalStepsDecrease | websocketcpp/examples/broadcast_server/broadcast_server.cpp:75-133 | every step other than a new call or a spurious wake-up decreases a well-founded measure |
| BroadcastServer.SomethingMoves | websocketcpp/examples/broadcast_server/broadcast_server.cpp:75-133 | no deadlock: unless all handlers returned and the consumer sleeps on an empty queue, some thread can step |
| BroadcastServer.QuiescentMeansDelivered | websocketcpp/examples/broadcast_server/broadcast_server.cpp:75-133 | when a run comes to rest every action was enqueued as often as a handler was called with it, everything enqueued is processed and exactly the sends the log calls for were made |
| BroadcastServer.FinishesFrom | websocketcpp/examples/broadcast_server/broadcast_server.cpp:75-133 | from every reachable state the work under way can be finished; then exactly the actions that were enqueued or carried are enqueued, processed and sent |
| BroadcastSections.Server.OnOpen | websocketcpp/examples/broadcast_server/broadcast_server.cpp:75-82 | queues a subscription behind what is queued and touches nothing else |
| BroadcastSections.Server.OnClose | websocketcpp/examples/broadcast_server/broadcast_server.cpp:84-91 | queues an unsubscription behind what is queued and touches nothing else |
| BroadcastSections.Server.OnMessage | websocketcpp/examples/broadcast_server/broadcast_server.cpp:93-101 | queues a message behind what is queued and touches nothing else |
| BroadcastSections.Server.ProcessNext | websocketcpp/examples/broadcast_server/broadcast_server.cpp:110-130 | has the effect of the round that the consumer's steps amount to, and keeps connections and sends those of the processed log |
| BroadcastSections.Server.Broadcast | websocketcpp/examples/broadcast_server/broadcast_server.cpp:123-129 | the loop sends the message once to every connection, in handle order |
| Utf8Validator.LeadMaskIsPayload | websocketcpp/websocketpp/utf8_validator.hpp:72-74 | `(0xff >> type) & byte` leaves exactly the payload bits of RFC 3629 for every byte that can start a sequence |
| Utf8Validator.TableGivesClass | websocketcpp/websocketpp/utf8_validator.hpp:45-54 | the first 256 entries of the packed table are the byte classes |
| Utf8Validator.TableGivesSuccessor | websocketcpp/websocketpp/utf8_validator.hpp:55-60 | the other entries, at the index the decoder computes, are the transitions of the automaton |
| Utf8Validator.DecodeByte | websocketcpp/websocketpp/utf8_validator.hpp:69-78 | one call through the table steps automaton and code point register |
| Utf8Validator.RunInvertsEncode | websocketcpp/websocketpp/utf8_validator.hpp:69-78 | every encoding is accepted and the code points read at each accept are the scalars encoded, in order |
| Utf8Validator.EncodeIsInjective | websocketcpp/websocketpp/utf8_validator.hpp:69-78 | hence different scalar sequences have different encodings |
| Utf8Validator.RejectIsAbsorbing | websocketcpp/websocketpp/utf8_validator.hpp:56 | nothing leads out of the reject state |
| Utf8Validator.BlockIsEncoding | websocketcpp/websocketpp/utf8_validator.hpp:69-78 | between two accepts the register collects a scalar value, no surrogate and not overlong, whose encoding is the bytes read |
| Utf8Validator.AcceptsExactlyWellFormed | websocketcpp/websocketpp/utf8_validator.hpp:45-78 | the automaton accepts a string if and only if it encodes some sequence of scalar values |
| Utf8Validator.OutputsAreTheUniqueDecoding | websocketcpp/websocketpp/utf8_validator.hpp:69-78 | a string is accepted with outputs vs if and only if it is the encoding of vs |
| Utf8Validator.AliveExactlyOnPrefixes | websocketcpp/websocketpp/utf8_validator.hpp:104-118 | the automaton has not rejected if and only if the string can be completed to well-formed UTF-8 |
| Utf8Validator.ChunksAgreeWithWhole | websocketcpp/websocketpp/utf8_validator.hpp:91-132 | for every chunking the conjunction of the chunk answers and the final state are those of the concatenation |
| Utf8Validator.Validator.constructor | websocketcpp/websocketpp/utf8_validator.hpp:84 | a new validator is in the accepting state |
| Utf8Validator.Validator.Consume | websocketcpp/websocketpp/utf8_validator.hpp:91-96 | steps state and register by one byte and says whether it is still alive |
| Utf8Validator.Validator.Decode | websocketcpp/websocketpp/utf8_validator.hpp:104-118 | leaves the state of the whole chunk although it stops early, and says yes exactly when no byte led to reject |
| Utf8Validator.Validator.Complete | websocketcpp/websocketpp/utf8_validator.hpp:124-126 | true exactly in the accepting state |
| Utf8Validator.Validator.Reset | websocketcpp/websocketpp/utf8_validator.hpp:129-132 | back to the state of a new validator |
| Utf8Validator.Validate | websocketcpp/websocketpp/utf8_validator.hpp:143-149 | true if and only if the string is well-formed UTF-8 in the sense of RFC 3629 |
| Utf8Validator.DecodeChunks | websocketcpp/websocketpp/utf8_validator.hpp:91-132 | for every chunking, all answers are yes iff the concatenation is a prefix of well-formed UTF-8, and with `complete` iff it is well-formed |
| FrameMasking.MaskAppend | websocketcpp/websocketpp/frame.hpp:644-655 | masking a concatenation is masking the parts, the second from the offset where the first ended |
| FrameMasking.MaskTwice | websocketcpp/websocketpp/frame.hpp:644-655 | masking twice with the same key and offset is the identity |
| FrameMasking.PrepareEstablishes | websocketcpp/websocketpp/frame.hpp:595-604 | on both byte orders and word sizes the prepared key repeats the four key bytes in memory order |
| FrameMasking.CircshiftRotates | websocketcpp/websocketpp/frame.hpp:612-623 | the two shifts rotate the bytes in memory by the offset, on both byte orders and word sizes |
| FrameMasking.CircshiftKeepsPrepared | websocketcpp/websocketpp/frame.hpp:612-623 | a prepared key stays prepared, for the key offset moved on by the rotation |
| FrameMasking.WordCircIsMask | websocketcpp/websocketpp/frame.hpp:768-789 | the word mask applies the key at its offset and returns the key prepared for the next chunk |
| FrameMasking.ByteCircIsMask | websocketcpp/websocketpp/frame.hpp:830-841 | so does the byte mask, although it cuts the key to 32 bits and rotates by the length modulo four |
| FrameMasking.StreamEqualsByteMask | websocketcpp/websocketpp/frame.hpp:595-841 | for every list of chunks and every choice of circular mask per chunk, threading the key gives the bytes of one byte mask over the concatenation |
| FrameMasking.PreparedHasPeriodFour | websocketcpp/websocketpp/frame.hpp:595-623 | every prepared key, however often rotated, has byte period four |
| FrameMasking.MasksAgreeIffPeriodFour | websocketcpp/websocketpp/frame.hpp:768-841 | the two circular masks agree on output and returned key for every payload if and only if the prepared key has byte period four |
| FrameMasking.ByteMask | websocketcpp/websocketpp/frame.hpp:644-655 | writes the masked bytes and nothing beyond them, also in place |
| FrameMasking.MaskWord | websocketcpp/websocketpp/frame.hpp:710-712 | one word read, combined and stored changes exactly its bytes by the bytes of the key in memory |
| FrameMasking.WordMaskExact | websocketcpp/websocketpp/frame.hpp:702-717 | equals the byte mask at offset 0 for every length and key, writes exactly `length` bytes, also in place |
| FrameMasking.WordMaskCirc | websocketcpp/websocketpp/frame.hpp:768-789 | computes the circular output of the old input and the rotated key, writes exactly `length` bytes, also in place |
| FrameMasking.ByteMaskCirc | websocketcpp/websocketpp/frame.hpp:830-841 | the same for the byte form |
| MachineWord.LoadedBytes | websocketcpp/websocketpp/frame.hpp:705-711 | a word read from memory has the bytes read, in memory order, on both byte orders and word sizes |
| MachineWord.BytesDetermine | websocketcpp/websocketpp/frame.hpp:773-785 | words with the same bytes in memory are equal |
| ByteOrder.Converter.DetectOrder | websocketcpp/websocketpp/common/network.hpp:73-76 | the cached byte order is that of the host |
| ByteOrder.Converter.ReverseEight | websocketcpp/websocketpp/common/network.hpp:80-83 | the four swaps reverse the eight bytes |
| ByteOrder.Converter.Htonll | websocketcpp/websocketpp/common/network.hpp:66-85 | the result lies in memory most significant byte first, on either byte order |
| ByteOrder.Converter.Ntohll | websocketcpp/websocketpp/common/network.hpp:98-100 | an integer that lies in memory most significant byte first is read as its value |
| ByteOrder.NetworkOrderDetermines | websocketcpp/websocketpp/common/network.hpp:66-85 | only one integer lies in memory in that order, so the conversion is fully determined |
| ByteOrder.LoadOfStore | websocketcpp/websocketpp/frame.hpp:252-255 | an integer read back through the union it was stored in is unchanged, on both byte orders and sizes |
| ByteOrder.TwiceIsIdentity | websocketcpp/websocketpp/common/network.hpp:66-100 | converting twice gives back the integer |
| ByteOrder.NtohsOfLoad16 | websocketcpp/websocketpp/close.hpp:306-311 | two bytes read through the union and `ntohs` are the number they spell most significant first |
| ByteOrder.Value16IsNumber | websocketcpp/websocketpp/close.hpp:306-311 | two bytes spell 256 times the first plus the second |
| FrameHeader.FirstByte | websocketcpp/websocketpp/frame.hpp:194-210 | every flag bit and the low four bits of the opcode are in their places |
| FrameHeader.SecondByte | websocketcpp/websocketpp/frame.hpp:212-227 | bit 7 is the mask bit; the other seven are the length up to 125, 126 up to 65535 and 127 beyond |
| FrameHeader.BasicHeader.constructor | websocketcpp/websocketpp/frame.hpp:194-228 | the getters give back every flag, the opcode and the size code the header was made from |
| FrameHeader.BasicHeader.SetFin | websocketcpp/websocketpp/frame.hpp:330-332 | sets the flag and leaves the other flags and the opcode alone |
| FrameHeader.BasicHeader.SetRsv1 | websocketcpp/websocketpp/frame.hpp:348-350 | the same for the first reserved bit |
| FrameHeader.BasicHeader.SetRsv2 | websocketcpp/websocketpp/frame.hpp:366-368 | the same for the second reserved bit |
| FrameHeader.BasicHeader.SetRsv3 | websocketcpp/websocketpp/frame.hpp:384-386 | the same for the third reserved bit |
| FrameHeader.BasicHeader.SetMasked | websocketcpp/websocketpp/frame.hpp:411-413 | sets the mask bit and leaves the size code alone |
| FrameHeader.ExtendedHeader.Unmasked | websocketcpp/websocketpp/frame.hpp:240-244 | the buffer is the length in its shortest big-endian form, then zeros |
| FrameHeader.ExtendedHeader.Masked | websocketcpp/websocketpp/frame.hpp:246-256 | the four key bytes as the host holds them follow the length, then zeros |
| FrameHeader.ExtendedHeader.CopyPayload | websocketcpp/websocketpp/frame.hpp:260-274 | copies the low bytes of the length most significant first, returns how many, and leaves the rest zero |
| FrameHeader.ExtendedHeader.GetExtendedSize | websocketcpp/websocketpp/frame.hpp:540-544 | the number the first two bytes spell |
| FrameHeader.ExtendedHeader.GetJumboSize | websocketcpp/websocketpp/frame.hpp:555-559 | the number the first eight bytes spell |
| FrameHeader.ExtendedHeader.GetPayloadSize | websocketcpp/websocketpp/frame.hpp:573-585 | the payload length that the header announces under section 5.2 of RFC 6455 |
| FrameHeader.ExtendedHeader.GetMaskingKey | websocketcpp/websocketpp/frame.hpp:516-529 | the four bytes after the extended length, or zeros when the frame is not masked |
| FrameHeader.PrepareHeader | websocketcpp/websocketpp/frame.hpp:489-502 | two bytes and exactly as much of the extended header as they announce |
| FrameHeader.LengthRoundTrip | websocketcpp/websocketpp/frame.hpp:260-274 | the size getter recovers every 64-bit length the constructors wrote |
| FrameHeader.KeyRoundTrip | websocketcpp/websocketpp/frame.hpp:516-529 | the key getter recovers every key, and a header announces exactly the length that was written |
| FrameHeader.WireRoundTrip | websocketcpp/websocketpp/frame.hpp:445-585 | in front of any payload a header delimits itself, is 2 to 14 bytes long, and gives back size, key and payload |
| FrameHeader.ShortestForm | websocketcpp/websocketpp/frame.hpp:216-224 | no header that announces the same length and is masked alike is shorter |
| FrameHeader.KeyIntegerRoundTrip | websocketcpp/websocketpp/frame.hpp:246-256 | the key read back as an integer of the host is the integer the header was made from |
| Base64.Find | websocketcpp/websocketpp/base64/base64.hpp:43-46 | every character `is_base64` admits is in the alphabet at the place of its RFC 4648 value, and no other is |
| Base64.CharOf | websocketcpp/websocketpp/base64/base64.hpp:43-58 | the characters in order are A-Z, a-z, 0-9, + and /, and each is looked up as its value |
| Base64.SplitGroup | websocketcpp/websocketpp/base64/base64.hpp:76-80 | the masks and shifts cut 24 bits into four values |
| Base64.AppendGroup | websocketcpp/websocketpp/base64/base64.hpp:75-86 | a full group appends the four characters of three more input bytes |
| Base64.AppendTail | websocketcpp/websocketpp/base64/base64.hpp:90-109 | one or two leftover bytes complete the encoding, padding included |
| Base64.Base64Encode | websocketcpp/websocketpp/base64/base64.hpp:66-112 | returns the RFC 4648 encoding of the input |
| Base64.JoinGroup | websocketcpp/websocketpp/base64/base64.hpp:142-148 | four lookups, 255 for a character that is not found, joined by the shifts of the code |
| Base64.DecodeGroup | websocketcpp/websocketpp/base64/base64.hpp:141-154 | four alphabet characters append the three bytes they hold |
| Base64.JoinedTail | websocketcpp/websocketpp/base64/base64.hpp:157-171 | the bytes kept from a partial group are the same whatever values stand for the missing characters, so failed lookups never reach the result |
| Base64.DecodeTail | websocketcpp/websocketpp/base64/base64.hpp:157-171 | a partial group appends exactly the whole bytes it holds |
| Base64.Base64Decode | websocketcpp/websocketpp/base64/base64.hpp:131-174 | returns the bytes held by the longest alphabet prefix |
| Base64.FromToSextets | websocketcpp/websocketpp/base64/base64.hpp:66-174 | regrouping bytes into six-bit values and back is the identity |
| Base64.ToFromSextets | websocketcpp/websocketpp/base64/base64.hpp:66-174 | regrouping values into bytes and back is the identity if and only if the values are canonical |
| Base64.DecodeInvertsEncode | websocketcpp/websocketpp/base64/base64.hpp:66-174 | decoding inverts encoding on every byte string, and an encoding has 4 * ceil(n / 3) characters |
| Base64.DecodedLength | websocketcpp/websocketpp/base64/base64.hpp:131-174 | an alphabet prefix of length k yields floor(3k / 4) bytes |
| Base64.DecodeSeesOnlyPrefix | websocketcpp/websocketpp/base64/base64.hpp:136 | strings with the same longest alphabet prefix decode alike |
| Base64.TestVectors | websocketcpp/websocketpp/base64/base64.hpp:66-112 | two encodings of RFC 4648, section 10, with one and with two pad characters |
| Base64.UnusedBitsAreLost | websocketcpp/websocketpp/base64/base64.hpp:157-171 | "AB" decodes, but its unused bits are not zero and re-encoding gives "AA==" |
| Base64.LoneCharacterIsLost | websocketcpp/websocketpp/base64/base64.hpp:157-171 | a single leftover character decodes to nothing |
| Base64.EncodeInvertsDecodeIffCanonical | websocketcpp/websocketpp/base64/base64.hpp:66-174 | re-encoding gives the prefix plus padding if and only if k % 4 is not 1 and the unused low bits are zero (RFC 4648, section 3.5) |
| Uri.PortRoundTrip | websocketcpp/websocketpp/uri.hpp:321-341 | a printed 16-bit port is read back, except that 0 is refused |
| Uri.SchemeOfStr | websocketcpp/websocketpp/uri.hpp:60-79 | the tests in the order of the code find exactly the scheme that was printed |
| Uri.PrintableRoundTrips | websocketcpp/websocketpp/uri.hpp:274-285 | parsing what `str` prints gives back scheme, secure flag, host, port and resource of every printable URI |
| Uri.RoundTripIffPrintable | websocketcpp/websocketpp/uri.hpp:199-206 | for arbitrary components the round trip holds if and only if the scheme is known, the port is 1 to 65535, the resource starts with a slash and the host has no slash, no colon and no leading bracket |
| Uri.ParsedParts | websocketcpp/websocketpp/uri.hpp:51-168 | what every valid parse guarantees of its parts |
| Uri.ParsePrintParse | websocketcpp/websocketpp/uri.hpp:51-168 | for every string parsed as valid without a bracketed host, printing and parsing is stable; for all valid ones it is stable if and only if the host is clean |
| Uri.UriIsParsed | websocketcpp/websocketpp/uri.hpp:51-168 | every scheme://host[:port][path] with a plain or bracketed host is parsed into exactly its parts; a missing port is 443 for wss and https and 80 for ws and http, a missing path is "/" |
| Uri.OtherSchemesAreRefused | websocketcpp/websocketpp/uri.hpp:60-79 | a string that does not start with one of the four schemes, or has nothing after it, is invalid |
| Uri.BadBracketsAreRefused | websocketcpp/websocketpp/uri.hpp:85-119 | an unclosed bracket, or one followed by anything but a port, a path or the end, is invalid |
| Uri.BadPortsAreRefused | websocketcpp/websocketpp/uri.hpp:330-338 | numbers above 65535 and negative numbers are no port |
| Uri.PortsAreReadLoosely | websocketcpp/websocketpp/uri.hpp:330 | white space and a plus sign in front of a port, and anything after its digits, are passed over as `atoi` does |
| Uri.DecimalIsShortest | websocketcpp/websocketpp/uri.hpp:279-281 | a printed port has no leading zero |
| Uri.DefaultPortIsSilent | websocketcpp/websocketpp/uri.hpp:274-285 | port 443 of a secure and port 80 of any other URI is not printed, every other port is |
| Uri.BracketedAddressIsLost | websocketcpp/websocketpp/uri.hpp:274-285 | a bracketed IPv6 address is a valid URI that printing and parsing does not preserve |
| Uri.FindBracket | websocketcpp/websocketpp/uri.hpp:91-97 | finds the first closing bracket or the end |
| Uri.ReadHost | websocketcpp/websocketpp/uri.hpp:120-137 | reads up to the first colon or slash, steps over it, never past the end, and reports which it was |
| Uri.ReadPort | websocketcpp/websocketpp/uri.hpp:140-154 | reads up to the next slash, steps over it, never past the end |
| Uri.GetPortFromString | websocketcpp/websocketpp/uri.hpp:321-341 | default for the empty string, error for 0 and for anything above 65535 after the unsigned cast |
| Uri.ParseString | websocketcpp/websocketpp/uri.hpp:51-168 | the cursor and state loop computes the grammar, on every string, with every access in bounds |
| Uri.Uri.FromString | websocketcpp/websocketpp/uri.hpp:51-168 | the object is valid exactly when the string is, and then holds its parts |
| Uri.Uri.FromParts | websocketcpp/websocketpp/uri.hpp:199-206 | the object holds the components, with the secure flag of the scheme and "/" for an empty resource |
| Uri.Uri.FromPartsPortString | websocketcpp/websocketpp/uri.hpp:216-226 | valid exactly when the port string is, and then with its value |
| Uri.Uri.ToString | websocketcpp/websocketpp/uri.hpp:274-285 | prints scheme, host, the port unless it is the default, and the resource |
| CameraServer.Server.constructor | broadcastTest.cpp:757-763 | the initial flags and counter |
| CameraServer.Server.Process | broadcastTest.cpp:660-703 | one dequeued action changes flags and handle as the transition system says |
| CameraServer.Server.Loop | broadcastTest.cpp:597-658 | one tick sends and counts as the transition system says |
| CameraServer.StepKeepsInvariant | broadcastTest.cpp:597-703 | every command and tick keeps the conservation invariant |
| CameraServer.RunKeepsInvariant | broadcastTest.cpp:597-703 | in every run texts sent = max * finished episodes + counter, and finished plus pending episodes are the get_data commands that found none pending, never more than the get_data commands of the run |
| CameraServer.ImagesOnlyBetweenRequests | broadcastTest.cpp:608-628 | in every run an image goes out only when every request started so far has been answered with all its texts |
| CameraServer.PendingGoesOn | broadcastTest.cpp:618-628 | while a request is pending, whatever commands come in between, each tick that finds the handle sends one text and nothing else is sent |
| CameraServer.RequestEndsExactly | broadcastTest.cpp:618-628 | the next such tick after max - count ends the request and streaming resumes |
| CameraServer.ReturnsAfterExactlyQuota | broadcastTest.cpp:597-658 | with no further commands and the handle found, a request is pending for exactly max - count + 1 ticks |
| CameraServer.TickSendsToLastDequeued | broadcastTest.cpp:597-628 | in every run a tick sends at most one message, to the handle of the last action taken off the queue |
| CameraServer.StopHolds | broadcastTest.cpp:684-700 | once stopped with no request pending, nothing is sent until a start or a request comes |
| CameraServer.StreamsUnlessStopped | broadcastTest.cpp:608-617 | with no request pending or coming, exactly one image goes out for each tick that finds the handle while the last command is not a stop, to the last dequeued handle |
| CameraServer.RunSendsImages | broadcastTest.cpp:597-703 | every run without requests sends exactly the images its events call for, streaming from the first action on |
| CameraServer.TicksStream | broadcastTest.cpp:608-617 | while it streams, n ticks that find the handle send n images and change nothing else |
| CameraServer.PendingSendsAnswers | broadcastTest.cpp:618-628 | while a request is pending, exactly one text goes out for each tick that finds the handle, to the last dequeued handle |
| CameraServer.RequestIsAnswered | broadcastTest.cpp:618-700 | a get_data command stops the stream and sends nothing; max texts follow, whatever commands come in between; then the stream goes on |
| Close.AllowedIsNeitherInvalidNorReserved | websocketcpp/websocketpp/close.hpp:184-203 | the codes neither invalid nor reserved are 1000-1003, 1007-1014 and 3000-4999, and no code is both |
| Close.ExtractCode | websocketcpp/websocketpp/close.hpp:294-322 | the big-endian value of the first two bytes on either byte order, flagged invalid up to 999, from 5000, and for 1005, 1006 and 1015, reserved for 1004 and 1016 to 2999; an empty payload gives 1005, a single byte 1002 with an error |
| Close.ExtractReason | websocketcpp/websocketpp/close.hpp:333-348 | the bytes after the code, flagged exactly when they are not well-formed UTF-8 |
| Close.AcceptsClose | websocketcpp/websocketpp/close.hpp:294-348 | both extractions report no error if and only if the payload is empty or has an allowed code and a well-formed reason |

## Left out

- The `Camera` classes, image saving, OpenCV, the camera SDK, `camera.py` and file I/O: wrappers around code that is not part of this model.
- `connection.hpp`, `endpoint.hpp`, TLS, Asio, sockets, logging and the other examples: plumbing.
- Failures and exceptions of `m_server.send`: a send always appends to the log.
- FrameMasking.ByteMask: input and output are the same buffer or different buffers; regions of one buffer that overlap in part are not modelled, nor is the alignment of the word casts. The same goes for the other masks.
- Base64.Base64Decode: the position `in_` is unbounded, so the overflow of the `int` on inputs beyond 2^31 characters is not modelled.
- The constants T of MD5 are those of the code and of the table in RFC 1321, not derived from sines; nothing is said about collisions.
- Md5.State.Append: an append to a partly filled buffer must have offset + nbytes within size_t; where the sum wraps, the code copies a negative number of bytes (websocketcpp/websocketpp/common/md5.hpp:374-376), and nothing is promised.
- Uri.Uri.FromString: what an invalid object holds, partly uninitialised in the code, is not specified.
- Uri.Uri.FromPartsPortString: the port of an invalid object is not specified.
- Uri: the constructors that take a secure flag or no port fill in "wss", "ws" or the default port and add nothing to the round trip; `get_query`, `get_authority` and the plain getters are easy; the md5 hexadecimal printer is easy.
- BroadcastServer.FinishesFrom: progress is about steps of work under way. That the scheduler eventually takes them, and that spurious wake-ups do not go on for ever, is assumed of the threads library.
- BroadcastServer: each critical section step is atomic, as its lock makes it; memory effects below that level are not modelled.
- CameraServer.Server.Process: the pointer `b` is uninitialised before the first action and points to a finished loop variable afterwards; it is modelled as "no handle" and as the last dequeued handle. Data races on the flags are not modelled: commands and ticks are atomic.
- CameraServer.Server.Loop: whether the handle is among the connections is an input, because `on_close` re-inserts it by printing `m_connections[hdl]` (broadcastTest.cpp:580-581).
- `on_open` and `on_close` of `broadcastTest.cpp` (561-585): unlike the broadcast server they change `m_connections` in place under `m_action_lock` and notify without queueing anything, and `looping` reads that map with no lock; this is why the lookup is an input here. `on_message` queues as the broadcast server does.
