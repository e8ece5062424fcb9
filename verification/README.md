# Verified models of the emulator's self-contained engines

This project models nine engines of the emulator in Dafny and proves what they are for:

* the **expression calculator** (`calc.cpp`): a shunting-yard converter and a stack machine, proved to compute the
  value of the tree that the text denotes in a grammar written out (`CalcTokens`, `CalcYard`, `CalcRpn`);
* the **blitter's fast loops** (`blitfunc.cpp`): words are written one step late; proved equal to the simple blit that
  writes truth-table words at once, to be each other's mirror images, to shift a row of words as one integer, and to
  fetch and write at the addresses of a rectangle
  (`Minterms`, `Blitter`, `BlitterRaster`, `BlitterMirror`, `BlitterStream`, `BlitterLoops`);
* the **A2065 Ethernet card** (`a2065.cpp`): descriptor rings, the look-ahead guard of the receive queue, the two-thread
  queue itself, the transmit chain, and the address exchange with its UDP checksum (`A2065Ram`, `A2065Receive`,
  `A2065Queue`, `A2065Transmit`, `A2065Munge`, `A2065Card`), with the results told on bytes of RAM and frame
  (`A2065Wire`, `A2065Sent`, `A2065Addresses`);
* **Akiko** (`akiko.cpp`): the chunky-to-planar converter behind its register, and the CD command and response machine
  under any mix of PIO and DMA (`AkikoC2p`, `AkikoCd`, `AkikoCdPort`);
* the **resolver result serialiser** (`bsdsocket_results.cpp`): structures of pointers laid out in guest memory and read
  back (`GuestMemory`, `ResolverResults`, `ResolverLayout`, `ResolverCopy`);
* the **ATonce board** (`atonce.cpp`): the 286/68k handshake over every interleaving, and the INT 13h disk service
  (`Atonce`, `AtonceBoard`, `AtonceDisk`);
* a **Paula audio channel** (`audio.cpp`): the state machine fed by DMA, proved to play its buffer in a loop (`Paula`,
  `PaulaChannel`);
* the **65C02's ADC and SBC** (`65c02core.cpp`) on packed decimal numbers of any length (`Decimal65C02`);
* the **Nordic Pro descrambler** (`ar.cpp`), proved to be a bijection (`NordicPro`).

`Numbers` and `Options` hold arithmetic facts and an option type that the others share.

Where the program works by changing things in place, the model has two layers.  A class with the program's fields, or a
method with the program's loop, does what the code does, and its postcondition equates the new state with a function of
the old one.  The theorems are about that function: what every step of a protocol keeps, what a whole run does, what one
operation undoes.  State is quantified over without bounds unless a line below says otherwise: any RAM contents, any
interleaving, any length.

Places where the code does not do what a reader would expect are stated as exact conditions, each with an input:

* A lone identifier makes the calculator answer zero.  The operators `<<`, `>>`, `!=` and the three memory reads are
  unknown to it exactly where `TCHAR` is a signed `char`, as od-unix/tchar.h:13 makes it on most targets
  (`CalcRpn.CalcPreservesMeaning`, with `1<<2` in `CalcRpn.ShiftNeedsUnsigned`).
* The ternary operator tests what an earlier calculation left in a cell, not its first operand
  (`CalcRpn.TernaryTestsLeftover`).
* The blitter's late write makes a fetch go wrong exactly if the fetch meets the pending word and that word differs from
  what is in memory (`Blitter.LateFetchesTheSame`, with a job in `Blitter.LateCanDiffer`).
* Nothing compares what a transmit chain gathers with the 4000-byte transmit buffer: for any RAM, a byte is stored behind
  it exactly if more than 4000 are gathered (`A2065Transmit.OutsideIsTooMuch`).  And a ring of the Am79C960 that is longer
  than the RAM lies over itself.  A chain that looks complete is sent exactly if it does not meet one of its descriptors
  twice, fits the buffer, and the address exchange stays in the buffer, too (`A2065Transmit.CompleteChainIsSent`, with
  chains in `A2065Transmit.ChainCanBeTooLong` and `A2065Transmit.ChainCanMeetItself`).
* The address exchange believes a datagram's length: it touches a byte behind its packet buffer exactly if it repairs a
  datagram that claims to end there (`A2065Munge.StaysInside`, which `A2065Card.MungePacket` decides, with a frame in
  `A2065Munge.LongClaimLeavesBuffer`).
* A repaired UDP checksum is stored as 0, which means "none", exactly if the datagram sums to a multiple of 65535
  (`A2065Munge.ZeroIsStored`, with a frame in `A2065Munge.ChecksumCanVanish`).
* The ATonce disk service stays in the PC partition exactly if the sectors it moves do; it does not look
  (`AtonceDisk.StaysInPartition`, with a request in `AtonceDisk.WriteCanLeavePartition`).  A PC disk reports
  its last cylinder exactly if it has a full one and fewer than 2^31, some coincidences aside: without a full one it
  claims 1024, and with more than 2^31 its number modulo 1024 (`AtonceDisk.ParametersUnpack`, with a disk in
  `AtonceDisk.LargeDiskReportsOne`).
* A Paula loop of length 1 raises its loop request on words 2, 3, 4, ... instead of 1, 2, 3, ...
  (`Paula.ReloadsOnMultiples`).

## Model

| member | source | states |
|---|---|---|
| `CalcTokens.GrammarIs` | calc.cpp:45-104 | the precedence and associativity tables are the grammar written out: products (`*`, `/` and the bitwise operators) and sums `+ -` group to the left, comparisons and shifts to the right, each layer tighter than the next, and a prefix operator takes an identifier or a parenthesis |
| `CalcTokens.WriteIsSentence` | calc.cpp:45-104 | every tree over the supported operators can be written as a text of that grammar, with only the parentheses needed, and the text denotes that tree |
| `CalcTokens.StoredAsTyped` | od-unix/tchar.h:13 | the text of an expression is stored with the codes of the tables, whatever sign TCHAR has, unless it has one of the six operators with a top bit |
| `CalcYard.ShuntingYard` | calc.cpp:107-239 | the loop over the 32-slot operator stack returns exactly what the specification of the conversion returns, success or failure, for every input text |
| `CalcYard.ReadToken` | calc.cpp:117-223 | one token changes stack and output as specified, including mismatched parentheses and unknown characters |
| `CalcYard.ConvertPrinted` | calc.cpp:107-239 | a text of the grammar, with any blanks, converts to the postfix form of its tree; it fails exactly when its pending operators and parentheses need 32 slots or more, or when TCHAR is signed and it has one of the operators `<<` `>>` `!=` `rb(` `rw(` `rl(` |
| `CalcYard.TighterFirst` | calc.cpp:45-104 | for any identifiers: `x+y*z` converts to `xyz*+` and `x*y+z` to `xy*z+`, for every operator of the two layers, and likewise comparisons and shifts against sums and products |
| `CalcYard.Grouping` | calc.cpp:45-104 | two operators of one layer: products and sums give `xy*z/`, comparisons and shifts `xyz<>` |
| `CalcYard.PrefixFirst` | calc.cpp:45-104 | a prefix operator is taken out before any binary one, on either side of it |
| `CalcYard.ScanUnknown` | calc.cpp:219-220 | any text at all that has one of these operators is given up as unknown where TCHAR is signed |
| `CalcYard.ScanSqueezed` | calc.cpp:117-119 | blanks make no difference to the reading, except behind a full stack |
| `CalcRpn.ExecutionOrder` | calc.cpp:484-605 | the evaluation loop over the cell stack returns the result of the specified machine, or fails when that does, whatever the cells held before |
| `CalcRpn.ExecuteToken` | calc.cpp:503-582 | one token changes the cells, the stack length and the current value as specified |
| `CalcRpn.RunPostfix` | calc.cpp:484-605 | running the postfix form of a tree, followed by anything, leaves one more cell holding the tree's value and the cells below untouched, or fails exactly when the tree needs more than the free cells |
| `CalcRpn.RunSkips` | calc.cpp:503-582 | where TCHAR is signed the machine steps over such an operator, too |
| `CalcRpn.CalcPreservesMeaning` | calc.cpp:107-605 | conversion and evaluation of any text of the grammar, with any blanks, give the value of its tree; failure exactly when one of the two stacks is too small, or TCHAR is signed and the text has one of the six operators; a lone identifier gives zero |
| `CalcRpn.CalcComputesTree` | calc.cpp:107-605 | for every tree with an operator, typed with the fewest parentheses and fitting the stacks, the converter emits its postfix form and the calculator returns its recursive value, or both fail for a signed TCHAR and one of the six operators |
| `CalcRpn.ShiftNeedsUnsigned` | calc.cpp:653-655 | `1<<2`, as the reader of values stores it, gives the shifted number if TCHAR is wide or unsigned, and no answer if it is signed |
| `CalcRpn.TernaryTestsLeftover` | calc.cpp:552-565 | `?` on three identifiers chooses by the number that an earlier calculation left in the first cell, not by the first identifier |
| `Minterms.BlitFuncIsTruthTable` | blit.h:1-518 | all 256 cases of the minterm evaluator are the truth table of their number, for every bit |
| `Minterms.FastTermIsTruthTable` | blittable.cpp:9-42 | every minterm that has a fast loop is computed there by an expression equal to its truth table |
| `Minterms.UnreadIsIrrelevant` | blitfunc.cpp:1-183 | a channel that a fast loop does not fetch cannot change that loop's result |
| `Blitter.LateIsImmediate` | blitfunc.cpp:108-145 | a fast blit, writing each word after the next word's fetches, leaves the same memory, zero flag and used-channel latches as a blit that writes every truth-table word at once, whenever no fetch reads the address written one step before; all sizes, modulos, masks, shifts and both directions |
| `Blitter.LateFetchesTheSame` | blitfunc.cpp:108-145 | the two orders have the same latches after every fetch of the whole blit if and only if no fetch of the program's loop meets a pending word that differs from what is in memory; then their results are the same |
| `Blitter.CookieCutIsClear` | blitfunc.cpp:108-145 | with C reading what D replaces, that condition only concerns the other channels |
| `Blitter.StridesMove` | blitfunc.cpp:121-139 | a pointer that steps by 2, or by 2 and a modulo that is not a multiple of chip RAM, never returns to the slot it left |
| `Blitter.LateCanDiffer` | blitfunc.cpp:108-145 | a two-word copy onto itself, one word further, in any chip RAM of at least eight words: the late and the immediate blit differ exactly if the two words do |
| `BlitterRaster.BlitByAddresses` | blitfunc.cpp:108-183 | while no pointer that is on wraps to zero, the blit that writes at once leaves the memory and zero flag of a second account in closed form: word i of row r of each channel at its start plus or minus 2(r width + i) + r modulo, A under the mask of its column, A and B shifted bit by bit with the word before, D the minterm bit 4A+2B+C |
| `BlitterRaster.LoopByAddresses` | blitfunc.cpp:108-183 | so does the program's loop, when no channel it needs fetches from where the word just computed goes, told by the same addresses |
| `BlitterMirror.MirrorBlit` | blitfunc.cpp:108-183 | reflecting addresses and reversing the bits of every word and mask turns a blit into the blit in the other direction with the same shifts |
| `BlitterMirror.MirrorTwice` | blitfunc.cpp:108-183 | the reflection undoes itself |
| `BlitterMirror.DescendingIsMirroredAscending` | blitfunc.cpp:146-183 | a descending blit is reflect, ascending blit, reflect |
| `BlitterStream.BarrelsDivide` | blitfunc.cpp:121-130 | word by word, the ascending shifter divides the integer made of the previous word and all words by a power of two |
| `BlitterStream.BarrelsDivideDown` | blitfunc.cpp:159-168 | the descending shifter divides the integer made of all words, later ones in front, and the previous word behind them |
| `BlitterStream.StreamIsOneNumber` | blitfunc.cpp:108-183 | over a whole blit in either direction, across row ends, the shifted words of channel A or B are the words found in the source, A's under the mask of their column, with the word left from before, shifted as one integer: right going up, left going down |
| `BlitterStream.StreamByAddresses` | blitfunc.cpp:108-183 | the source words of that stream are the words at the addresses of rows and columns, in the memory as it then is; in either order of writing |
| `BlitterLoops.BlitterUnit.FastBlit` | blitfunc.cpp:108-183 | the loop over rows, with its locals and the fields it updates, ends in the state of the late blit, in both directions; memory and zero flag in closed form from the registers' fields, while no pointer wraps to zero and no fetch meets the word just computed |
| `BlitterLoops.BlitterUnit.FastRows` | blitfunc.cpp:118-140 | the outer loop does the rows of the late blit |
| `BlitterLoops.BlitterUnit.FastRow` | blitfunc.cpp:119-135 | the inner loop does one row of the late blit |
| `A2065Ram.SameDescriptor` | a2065.cpp:300-332 | a descriptor is read back unchanged if its eight bytes of RAM are |
| `A2065Ram.PutStatusEffect` | a2065.cpp:300-332 | writing a descriptor's status words changes those words of that descriptor and no other byte, unless RAM is not accessible there |
| `A2065Card.Card.GetRamWord` | a2065.cpp:300-321 | words are big-endian, and read as zero where the chip has no RAM |
| `A2065Card.Card.PutRamWord` | a2065.cpp:322-332 | words are written high byte first, and nowhere where the chip has no RAM |
| `A2065Card.Card.ReceiveFrame` | a2065.cpp:476-535 | the receive loop ends with the RAM, ring position and CSR0 of the specified delivery; it ends for any RAM contents because every buffer takes at least one byte |
| `A2065Card.Card.GotFrame` | a2065.cpp:352-535 | frames that are filtered, short or oversize change nothing; any other is exchanged in the packet buffer, given its check sequence and delivered, unless the exchange would leave that buffer |
| `A2065Card.Card.ReceiveSpaceAvailable` | a2065.cpp:598-616 | the guard's loop computes its specification |
| `A2065Card.Card.ReceivePacketCanFit` | a2065.cpp:581-596 | the ring-size test computes its specification |
| `A2065Receive.RunIsShortest` | a2065.cpp:481-531 | the descriptors that the loop uses are the fewest from its position that hold the frame |
| `A2065Receive.DeliverRun` | a2065.cpp:476-535 | if those descriptors are the chip's and the buffers keep clear of each other and of the descriptors, the frame is delivered: each is given back, STP on the first, ENP and the length on the last, the buffers hold the bytes in order through the byte swap, and no other byte changes |
| `A2065Receive.RingIsDistinct` | a2065.cpp:481-531 | a ring of up to 4096 descriptors does not meet itself within one turn |
| `A2065Receive.ApartIsDistinct` | a2065.cpp:481-531 | a run whose buffers keep clear of each other has different descriptors, also on a ring that lies over itself |
| `A2065Receive.SpaceFits` | a2065.cpp:581-616 | a frame for which there is space can fit |
| `A2065Receive.FitsIsCapacity` | a2065.cpp:581-596 | a frame can fit exactly if the ring's buffers add up to it |
| `A2065Receive.GuardMeansDelivery` | a2065.cpp:476-616 | when the guard says yes, the loop never meets a descriptor of the host's and delivers into the shortest run, within one turn of the ring; rings at any address and of any length |
| `A2065Receive.OneBufferIsEnough` | a2065.cpp:569-616 | a frame that fits the next descriptor's buffer is admitted if that descriptor is the chip's, and the buffer of an ordinary ring keeps clear of it: the conditions of the delivery theorem are met |
| `A2065Wire.GuardIs` | a2065.cpp:569-616 | the guard admits a frame if and only if it has 1 to 4000 bytes (3996 unless the check sequence is stripped), the receiver is initialised and on, and consecutive buffers of the chip's, within the ring, hold it padded to 60 bytes with its check sequence |
| `A2065Wire.FitIs` | a2065.cpp:569-596 | the ring could hold it if and only if the sizes of all its buffers add up to that |
| `A2065Wire.GuardMakesReady` | a2065.cpp:476-616 | then the fewest buffers that hold it are the chip's and no more than the ring has |
| `A2065Wire.ReceivedByte` | a2065.cpp:476-535 | byte i of the part in a buffer lies in the RAM at the buffer's address plus i, modulo 32768; with the byte swap at that address with its lowest bit inverted; the ring stands behind the last descriptor |
| `A2065Wire.ReceivedStatus` | a2065.cpp:476-535 | every byte of every descriptor used: the third loses bit 7, the first descriptor gets bit 1 there, the last bit 0 and the length in its last two bytes, and the others stay |
| `A2065Wire.OthersStay` | a2065.cpp:476-535 | every cell that is neither a byte of those descriptors nor of the frame is unchanged |
| `A2065Wire.LostFrame` | a2065.cpp:481-531 | a frame whose buffers run out before a descriptor of the host's is lost: nothing changes if it is the first; otherwise the last descriptor used is given back with bits 6, 4 and 2 of its third byte set, and the ring stands at the host's |
| `A2065Card.GuardedFrameArrives` | a2065.cpp:352-616 | a frame that the guard admits, the filter keeps and whose exchange stays in the packet buffer arrives: from the frame as it was queued to the bytes on the board, whatever lies behind it in the buffer |
| `A2065Card.OnTheBoardIsMunged` | a2065.cpp:441-474 | a frame that holds its headers and what they claim lies on the board with its addresses exchanged, by the offsets of `A2065Addresses.MungeExchanges`, and its check sequence behind it; the exchange stays in the buffer unless the frame fills it |
| `A2065Card.KeptFrames` | a2065.cpp:375-416 | which frames are kept, by destination, source, promiscuous mode and group filter |
| `A2065Queue.FramesEnqueued` | a2065.cpp:641-663 | storing a frame in the first free slot appends it to the queue and leaves the others as they were, round the end of the buffer |
| `A2065Queue.ReceiveQueue.PeekSize` | a2065.cpp:537-548 | the length of the oldest frame, 0 if there is none |
| `A2065Queue.ReceiveQueue.Pop` | a2065.cpp:550-567 | takes the oldest frame, whole |
| `A2065Queue.ReceiveQueue.Enqueue` | a2065.cpp:641-663 | appends, or drops the frame when 255 are waiting |
| `A2065Queue.ReceiveQueue.Clear` | a2065.cpp:157-164 | empties the queue |
| `A2065Queue.StepKeepsInv` | a2065.cpp:537-663 | one critical section of either thread: every accepted frame stays exactly one of delivered, dropped, flushed, in hand or queued, in order of arrival, and what was peeked is still the oldest |
| `A2065Queue.RunKeepsInv` | a2065.cpp:537-663 | every accepted frame is accounted for once and in order of arrival in every interleaving of the two threads |
| `A2065Queue.HandledInOrder` | a2065.cpp:618-639 | in every interleaving the frame handed on is the one that was peeked and tested, the next in order of arrival, and the ring still has space for it |
| `A2065Queue.HandledFrameArrives` | a2065.cpp:476-639 | a frame in hand that the receiver keeps is delivered whole, if its exchange stays in the packet buffer and the ring's buffers keep clear of each other and of the descriptors |
| `A2065Queue.OneRound` | a2065.cpp:618-639 | a round of the drain drops a frame that the ring could never hold, leaves one that has no space now, and hands any other on, up to 16 rounds |
| `A2065Transmit.CountFalls` | a2065.cpp:719-757 | giving a descriptor back lowers the number of descriptors the chip owns, also when ring positions meet the same descriptor again |
| `A2065Transmit.VisitsAreBounded` | a2065.cpp:719-757 | for any RAM contents the transmit loop visits at most one descriptor more than the chip owns |
| `A2065Transmit.OutsideIsTooMuch` | a2065.cpp:719-757 | for any RAM contents and any end of the chain: a byte is stored behind the transmit buffer if and only if more than 4000 are gathered; otherwise the loop does what it would do with a buffer without end |
| `A2065Transmit.CompleteChainIsGathered` | a2065.cpp:719-757 | a complete chain of different descriptors runs over the transmit buffer if it holds more than 4000 bytes; otherwise it is gathered as the concatenation of what is read of its buffers, its descriptors are returned and no other byte changes |
| `A2065Transmit.MeetingBreaks` | a2065.cpp:719-757 | a chain that meets one of its descriptors again is broken there, if it has not run over the buffer before |
| `A2065Transmit.CompleteChainIsSent` | a2065.cpp:685-800 | a complete chain of at least 60 bytes is sent once, without the host's check sequence where the mode says so, and the transmitter stays on, if and only if its descriptors are different ones, it holds at most 4000 bytes, and the address exchange stays in the buffer; otherwise the attempt fails or a byte behind the buffer is touched |
| `A2065Transmit.SentFrameIsMunged` | a2065.cpp:768-782 | a frame that holds its headers and what they claim is sent with its addresses exchanged, by the offsets of `A2065Addresses.MungeExchanges`, whatever the buffer held before |
| `A2065Sent.GatheredByte` | a2065.cpp:719-757 | every byte gathered: byte i of a buffer from its address plus i, with the byte swap from that address with its lowest bit inverted, at most 4000 of each, and zeros up to 60; a chain of more than 4000 runs over the buffer |
| `A2065Sent.SentStatus` | a2065.cpp:719-757 | every byte of every descriptor of the chain: the third loses bit 7, and the others stay |
| `A2065Sent.SkippedAttempt` | a2065.cpp:684-707 | nothing is sent unless the descriptor at hand is the chip's and starts a frame |
| `A2065Sent.SentAttempt` | a2065.cpp:684-789 | a whole chain of 60 to 4000 bytes is sent, without its last four when they are the host's check sequence, and the flag raised is bit 9 |
| `A2065Sent.CutAttempt` | a2065.cpp:719-762 | a chain cut short by a descriptor of the host's is not sent; that descriptor's bytes and the flags afterwards |
| `A2065Sent.ShortAttempt` | a2065.cpp:755-770 | nor is one of less than 60 bytes; its last descriptor's bytes and the flags afterwards |
| `A2065Transmit.ChainCanMeetItself` | a2065.cpp:719-757 | a ring of 4097 descriptors and the bytes of RAM that make a chain look complete which is not sent |
| `A2065Transmit.ChainCanBeTooLong` | a2065.cpp:719-757 | two descriptors with buffers of 4000 bytes make a complete chain that runs over the transmit buffer |
| `A2065Card.Card.CollectChain` | a2065.cpp:719-757 | the loop with its ring offset and its buffer ends as the specified gathering, or stops at the first byte that would go behind the buffer |
| `A2065Card.Card.DoTransmit` | a2065.cpp:685-800 | the routine's RAM, ring position, CSR0 and outcome are the specified ones, including a broken chain, one that is too short, and one that runs over the buffer |
| `A2065Munge.FixedSumsToOnes` | a2065.cpp:226-248 | after the repair, pseudo-header and datagram with the stored checksum fold to 0xffff (RFC 768; section 1 of RFC 1071) |
| `A2065Munge.MungedChecksumIsRight` | a2065.cpp:186-257 | a DHCP datagram that had a checksum and carried one of the two addresses folds to 0xffff after the exchange |
| `A2065Munge.ZeroIsStored` | a2065.cpp:240-247 | the stored checksum is 0, instead of the 0xffff that RFC 768 has for it, if and only if the blanked datagram and pseudo-header sum to a multiple of 65535 |
| `A2065Munge.ChecksumCanVanish` | a2065.cpp:186-257 | a DHCP request that had a checksum and leaves the exchange with 0 |
| `A2065Munge.MungeTwice` | a2065.cpp:166-257 | exchanging the addresses twice restores every byte of a well-formed frame but the checksum and the pad byte after the datagram |
| `A2065Addresses.MungeExchanges` | a2065.cpp:166-257 | by offsets: in every sound frame the addresses at 0 and 6, in an ARP packet also those at 22 and 32, in a DHCP datagram also the client's at 36 of the UDP header become the host's if they were the card's, the card's if they were the host's; no other byte changes but checksum and pad byte of a datagram that is repaired |
| `A2065Addresses.RepairedSum` | a2065.cpp:166-200 | addresses, protocol, length and the repaired datagram, its checksum included, add up to a positive multiple of 65535 as big-endian words |
| `A2065Addresses.StaysIs` | a2065.cpp:166-257 | the exchange leaves a packet buffer of 4000 bytes exactly for a datagram that is repaired and claims to reach the buffer's end |
| `A2065Addresses.SoundIs` | a2065.cpp:202-257 | the frames that hold what they claim, told by bytes at offsets |
| `A2065Munge.StaleIsIrrelevant` | a2065.cpp:186-257 | the exchange of a frame that holds its headers and what they claim does not depend on the bytes behind it in the buffer |
| `A2065Munge.WellFormedStaysInside` | a2065.cpp:186-257 | nor does it leave the buffer, unless the frame fills it |
| `A2065Munge.LongClaimLeavesBuffer` | a2065.cpp:224-229 | a DHCP frame of 77 bytes with a datagram length of 65535, whose repair leaves the buffer |
| `A2065Card.DoFakeMac` | a2065.cpp:166-180 | the address at an offset is exchanged in place, and the result says whether it was |
| `A2065Card.FixUdpChecksum` | a2065.cpp:226-248 | the loop over words and the folding loop store the specified checksum in place; it leaves the buffer exactly if the byte after the datagram lies behind it |
| `A2065Card.MungePacket` | a2065.cpp:186-257 | the routine changes the buffer in place as specified, all its accesses being inside, exactly if the byte after a datagram to be repaired is |
| `AkikoC2p.PlanesHoldPixelBits` | akiko.cpp:317-328 | plane k holds bit k of every pixel, leftmost pixel in the top bit |
| `AkikoC2p.ChunkyUndoesPlanes` | akiko.cpp:317-328 | the conversion loses nothing: an explicit inverse computes the pixels back |
| `AkikoC2p.PlanesUndoesChunky` | akiko.cpp:317-328 | every eight longs are the planes of some pixels: the conversion is an invertible permutation of the 256 bits |
| `AkikoC2p.Converter.Precalculate` | akiko.cpp:331-342 | the two tables hold the bit masks and the destinations |
| `AkikoC2p.Converter.Convert` | akiko.cpp:344-382 | the optimised form computes the planes, |
| `AkikoC2p.Converter.ConvertNaively` | akiko.cpp:317-328 | the reference loop that is compiled out computes the planes too: the two forms agree |
| `AkikoC2p.Converter.RowsArePlane` | akiko.cpp:344-382 | the 32 terms of one result long are one plane |
| `AkikoC2p.Converter.Write` | akiko.cpp:385-395 | a byte written to the register |
| `AkikoC2p.Converter.Read` | akiko.cpp:397-408 | a byte read from it, converting on the first read after a write |
| `AkikoC2p.Converter.LongPut` | akiko.cpp:2034-2047 | a long write is four byte writes, highest address first |
| `AkikoC2p.Converter.LongGet` | akiko.cpp:1859-1876 | a long read is four byte reads and one step of the read position |
| `AkikoC2p.PutLongStores` | akiko.cpp:385-395 | a long write stores the long in one slot and moves to the next |
| `AkikoC2p.LongReadsCycle` | akiko.cpp:397-408 | after a write, long reads return planes 0 to 7 over and over |
| `AkikoC2p.PlanesComeBack` | akiko.cpp:385-408 | after any history of accesses, eight long writes and then long reads return the planes of the eight longs, rotated by the write position; after a history that ends in a read, not rotated |
| `AkikoC2p.PixelsComeBack` | akiko.cpp:385-408 | after a history that ends in a read, the k-th long read shows bit k mod 8 of every pixel written, leftmost pixel in the top bit |
| `AkikoC2p.ByteAccess` | akiko.cpp:1824-1876 | single bytes: offset 0 is the most significant, a write to offset 3 clears the long, one to offset 0 goes on to the next |
| `AkikoCd.SealedSumsToFF` | akiko.cpp:834-843 | every packet's bytes add up to 0xff modulo 256 |
| `AkikoCd.ResponseIsOwed` | akiko.cpp:1237-1293 | what the error flags and the command byte select is what the complete command is owed: a checksum or bad-command report, its own response, or nothing |
| `AkikoCd.BurstGoesToThePage` | akiko.cpp:865-903 | a DMA burst moves the pending bytes to consecutive places of the page, round its end, as many as are left or as the index limit allows, touches no other place, and reports the limit when it is reached |
| `AkikoCd.ExecuteKeepsInv` | akiko.cpp:1237-1293 | a complete command is carried out once and its packet starts, or the transmit status is raised if it has none |
| `AkikoCd.HandlerKeepsInv` | akiko.cpp:1380-1441 | a packet of the drive's own starts only when none is pending |
| `AkikoCd.StepKeepsInv` | akiko.cpp:824-903 | one register access or line reads only pending bytes, in order, leaves the unread ones as they were, and shows every packet it starts and every command without one |
| `AkikoCd.CommandsAreSplit` | akiko.cpp:1136-1194 | the commands carried out are the ones that the bytes sent delimit |
| `AkikoCd.EveryRun` | akiko.cpp:824-1454 | in every interleaving of register accesses, lines, guest and drive: the commands carried out are those delimited in the bytes the guest offered, by PIO or from its page, each with the packet it is owed; the bytes read by DMA and PIO are a prefix of the packets in order, and all of them when nothing is pending |
| `AkikoCd.FetchesTheNextByte` | akiko.cpp:1206-1236 | transmit DMA takes the byte at the index and moves the index on, round the page, exactly under its six conditions, and reports the limit when it meets it; otherwise nothing changes |
| `AkikoCd.StepTakesOffered` | akiko.cpp:1206-1236 | a step takes the byte written to the data register, or the byte at the index of the page, and no other; the index counts those taken from the page |
| `AkikoCd.ReturnsExactly` | akiko.cpp:865-903 | receive DMA moves as many pending bytes as there are or as the limit allows, exactly while it is on, a packet is pending and the delay is over; the flags afterwards |
| `AkikoCd.TakesTheNextByte` | akiko.cpp:1796-1808 | a read of the data register takes the next pending byte unless receive DMA is on; the flags afterwards |
| `AkikoCd.GivesTheByte` | akiko.cpp:1988-1998 | a write to the data register is taken unless transmit DMA is on or the interface is busy; the status tells whether it wants another |
| `AkikoCd.CommandLengths` | akiko.cpp:1136 | bytes of each command, its checksum included |
| `AkikoCd.Answers` | akiko.cpp:1235-1293 | what each command is owed, byte by byte: complaints 0x81 and 0x89, answers, and none |
| `AkikoCd.Notices` | akiko.cpp:1380-1454 | what the drive sends by itself, and in which order of precedence |
| `AkikoCd.TocTurns` | akiko.cpp:970-976 | the table of contents is sent entry by entry, each three times, and then no more |
| `AkikoCd.ComesUp` | akiko.cpp:1237-1398 | the interface is up after the handler's first call, and sends notices after a good command 7 |
| `AkikoCdPort.Port.StartReturnData` | akiko.cpp:831-855 | the checksum loop seals the packet, unless one is pending or there is nothing to send |
| `AkikoCdPort.Port.TransferResult` | akiko.cpp:865-903 | the DMA loop ends as the specified burst |
| `AkikoCdPort.Port.AddCommandByte` | akiko.cpp:1138-1194 | a byte is added, and a complete command is recognised with its two error flags |
| `AkikoCdPort.Port.RunCommand` | akiko.cpp:1204-1235 | one byte by transmit DMA, if every condition for it holds |
| `AkikoCdPort.Port.RunCommandRun` | akiko.cpp:1237-1293 | the command is executed as specified |
| `AkikoCdPort.Port.Handle` | akiko.cpp:1380-1441 | the handler with its chain of tests sends what the drive has to say |
| `AkikoCdPort.Port.HsyncHandler` | akiko.cpp:1456-1519 | the CD part of a horizontal line |
| `AkikoCdPort.Port.ReadDataRegister` | akiko.cpp:1796-1808 | PIO read: the next pending byte, or the last one again |
| `AkikoCdPort.Port.WriteDataRegister` | akiko.cpp:1988-1998 | PIO write: a command byte if one is wanted |
| `GuestMemory.SpanIsOnce` | bsdsocket_results.cpp:93-112 | what "every byte of a range exactly once" means for the record of writes |
| `GuestMemory.TableReadsBack` | bsdsocket_results.cpp:66-73 | a pointer table is read back up to its zero |
| `GuestMemory.TextReadsBack` | bsdsocket_results.cpp:54-64 | a string is read back up to its zero |
| `ResolverResults.LayNext` | bsdsocket_results.cpp:66-73 | the next string goes behind the others, its address behind theirs, and nothing else changes |
| `ResolverResults.HostAssembled` | bsdsocket_results.cpp:93-112 | the writes of a host structure, in their order, leave exactly its image |
| `ResolverResults.HostSpans` | bsdsocket_results.cpp:75-112 | the writes of a host structure touch every byte of the computed size exactly once and no other |
| `ResolverResults.HostReadsBack` | bsdsocket_results.cpp:75-112 | a guest reads back name, aliases, type, length and addresses as they were given, for all of them, and every pointer leads to bytes inside the block |
| `ResolverResults.EntryAssembled` | bsdsocket_results.cpp:114-150 | the writes of a protocol or service structure, in their order, leave exactly its image |
| `ResolverResults.EntrySpans` | bsdsocket_results.cpp:114-150 | the writes of a protocol or service structure touch every byte of the computed size exactly once |
| `ResolverResults.EntryReadsBack` | bsdsocket_results.cpp:114-150 | a guest reads back name, aliases, number and protocol as they were given, and every pointer leads into the block |
| `ResolverLayout.HostIs` | bsdsocket_results.cpp:93-112 | the image of a host structure by offsets: big-endian pointers at 0, 4 and 16, type at 8, length at 12, tables ended by zero whose i-th pointer leads to the i-th string or address |
| `ResolverLayout.EntryIs` | bsdsocket_results.cpp:114-150 | those of a protocol and a service, with the number at 8 and the protocol's name at 12 |
| `ResolverCopy.Resolver.ResultBuffer` | bsdsocket_results.cpp:29-52 | a buffer that is large enough is kept; a smaller one is freed with the size it was allocated with; failures leave no buffer and error 12; the three buffers stay blocks of their own |
| `ResolverCopy.Resolver.PutAliases` | bsdsocket_results.cpp:66-73 | the loop lays out the table and the strings and writes each byte once |
| `ResolverCopy.Resolver.PutAddresses` | bsdsocket_results.cpp:104-109 | the address loop lays out its table and the addresses and writes each byte once |
| `ResolverCopy.Resolver.AliasSize` | bsdsocket_results.cpp:19-27 | the first pass counts the aliases and the bytes they will need |
| `ResolverCopy.Resolver.CopyHostent` | bsdsocket_results.cpp:75-112 | success exactly if the size fits and there is a buffer; then the image is in place, each of its bytes written once and no other, and it reads back as given; a negative address length is error 22 and changes nothing |
| `ResolverCopy.Resolver.CopyProtoent` | bsdsocket_results.cpp:114-130 | for a protocol: success exactly if the size fits and there is a buffer; then the image is in place, each byte written once and no other, and it reads back as given |
| `ResolverCopy.Resolver.CopyServent` | bsdsocket_results.cpp:132-150 | for a service, with its port and protocol name: success exactly if the size fits and there is a buffer; then the image is in place, each byte written once and no other, and it reads back as given |
| `Atonce.Run286KeepsInv` | atonce.cpp:423-451 | the 286 is free at every instruction it executes, and the first trap ends its run |
| `Atonce.WriteBKeepsInv` | atonce.cpp:888-947 | a resume keeps the protocol, whether it starts the 286 or interposes a refresh |
| `Atonce.TickKeepsInv` | atonce.cpp:1090-1145 | a line keeps the protocol, whether it owes a refresh, fires one or runs the 286 |
| `Atonce.StepKeepsInv` | atonce.cpp:736-1163 | every access of either side keeps the protocol |
| `Atonce.EveryRun` | atonce.cpp:736-1163 | in every interleaving: a pending trap and a stop mean frozen; the 286 runs only unfrozen; no trap overwrites another; no synthetic refresh comes before the 286 programmed video since its last reset, nor twice without the 286 running in between; each trap is resumed or wiped once |
| `Atonce.DriverRecoversPort` | atonce.cpp:879-886 | the driver's mask and rotation recover every 10-bit port from the stop readback |
| `Atonce.DriverSeesTheTrap` | atonce.cpp:423-451 | after any instructions that pass and one that traps, the driver finds a trap pending and, once it has stopped the 286, that instruction's direction and the low ten bits of its port |
| `Atonce.EveryTrapIsExecuted` | atonce.cpp:736-1163 | over every run, the traps that are not synthetic are those of the instructions executed, in order, each with its direction and the low ten bits of its port; and video counts as programmed exactly if one of them was output to a video port since the last reset |
| `Atonce.RefreshedEvery25Frames` | atonce.cpp:1115-1126 | a text that does not change is refreshed at the end of every 25th frame, whatever the number of lines |
| `Atonce.RefreshAfterResume` | atonce.cpp:888-947 | a refresh that is due takes the place of a run after a real trap, except at the ports listed |
| `Atonce.PortBits` | atonce.cpp:783-947 | which lines a write to PORT_A sets, by bits, and a write to PORT_B in set-up mode and on a board not yet configured |
| `AtonceBoard.Atonce286.X86` | atonce.cpp:736-759 | an I/O instruction traps unless it is the coprocessor's or served by the disk bypass |
| `AtonceBoard.Atonce286.Execute` | atonce.cpp:423-451 | a run executes instructions up to the first trap |
| `AtonceBoard.Atonce286.StatusRead` | atonce.cpp:768-781 | PORT_A shows the pending trap and, once stopped, its direction |
| `AtonceBoard.Atonce286.ModeWrite` | atonce.cpp:783-812 | PORT_A write: set-up mode, and a reset on the rising edge of D0 |
| `AtonceBoard.Atonce286.StopRead` | atonce.cpp:879-886 | PORT_B read: stop, and the port of the trap |
| `AtonceBoard.Atonce286.ResumeWrite` | atonce.cpp:888-947 | PORT_B write: set-up shift, or resume and then refresh or run |
| `AtonceBoard.Atonce286.Line` | atonce.cpp:1090-1145 | a line: the refresh timer, then refresh or run |
| `AtonceBoard.Atonce286.HardReset` | atonce.cpp:1147-1163 | the board's reset |
| `AtonceDisk.LbaThenChs` | atonce.cpp:651-664 | different places on the disk have different linear addresses |
| `AtonceDisk.ChsThenLba` | atonce.cpp:651-664 | every address below the reported size has a place within the reported geometry |
| `AtonceDisk.LbaIsOnTheDisk` | atonce.cpp:661-687 | all places of the reported geometry are on the disk |
| `AtonceDisk.ParametersUnpack` | atonce.cpp:684-697 | the packed parameters decode to the last cylinder if and only if the disk has a full cylinder and, from 2^31 cylinders on, where a cast goes wrong, if the low bits coincide; a disk without a full cylinder claims 1024, one with more than 2^31 claims its number modulo 1024 |
| `AtonceDisk.LargeDiskReportsOne` | atonce.cpp:684-697 | a disk of 2^31 + 1 sectors, one head and one sector per track that reports one cylinder |
| `AtonceDisk.ReportedPlacesAreOnTheDisk` | atonce.cpp:661-697 | every place that a guest may use by the report is on the disk if and only if the disk has a full cylinder, whatever the cast makes of its number |
| `AtonceDisk.DiskService.LastCylinder` | atonce.cpp:685-687 | division, cast, subtraction and limit give the specified number |
| `AtonceDisk.WriteThenRead` | atonce.cpp:661-683 | sectors written are read back into any buffer, as many as are inside the image |
| `AtonceDisk.RoundTrip` | atonce.cpp:628-683 | a write and then a read of the same place return the same bytes, and the answer in the register frame does not disturb them if the frame is elsewhere |
| `AtonceDisk.StaysInPartition` | atonce.cpp:651-683 | for a request with any cylinder, head, sector and count: the bytes of the image that a write can change all lie in the partition if and only if no sector is moved or the last one moved ends inside; the same of the bytes that a read depends on |
| `AtonceDisk.ReportedStaysInPartition` | atonce.cpp:651-697 | for a place of the reported geometry that is: the count, or what is left of the image, is at most what is left of the partition; one sector always is |
| `AtonceDisk.WriteCanLeavePartition` | atonce.cpp:651-683 | a write of two sectors to the last place of a two-sector partition changes the byte behind it |
| `AtonceDisk.StoredByte` | atonce.cpp:664-680 | every byte of the image after a write: memory's inside the sectors moved, its own outside |
| `AtonceDisk.RequestBytes` | atonce.cpp:643-683 | for the packed registers of any request, the place in the image, the number of sectors moved, and every byte of memory and image afterwards |
| `AtonceDisk.PlacesInOrder` | atonce.cpp:651-664 | linear addresses count sectors, then heads, then cylinders, from 0 at place 0, 0, 1 |
| `AtonceDisk.PlaceIsPacked` | atonce.cpp:651-655 | cylinder and sector as the PC packs them are the ones used |
| `AtonceDisk.AnswerBytes` | atonce.cpp:628-641 | an answer changes AH, AL and the carry flag of the register frame and no other byte |
| `AtonceDisk.DiskService.ReadSectors` | atonce.cpp:668-680 | the read loop stops at the first sector outside the image |
| `AtonceDisk.DiskService.WriteSectors` | atonce.cpp:668-680 | the write loop stops at the first sector outside the image |
| `AtonceDisk.DiskService.Bypass` | atonce.cpp:643-712 | memory, image and result of every function, and which drives are served at all |
| `Paula.SamplesAreLatchedBytes` | audio.cpp:1909-2030 | in every interleaving the samples put out are the high byte and then the low byte of each word latched, none missing but perhaps the last low byte |
| `Paula.ReloadsOnMultiples` | audio.cpp:2549-2568 | in every interleaving the counter is reloaded, and the loop requested, exactly on the words whose number is a multiple of the length, 0 meaning 65536, except on word 1 |
| `Paula.PlaysTheLoop` | audio.cpp:1818-2035 | if every request is answered before the word is due, sample i is byte i mod 2 of the word at the location register plus 2 ((i / 2) mod length), high byte first, a length of 0 meaning 65536; and there is one interrupt for the start and one per loop |
| `Paula.LoopsDoneIs` | audio.cpp:2003-2006 | the number of loops after n words |
| `Paula.EnablingStarts` | audio.cpp:1818-1835 | enabling an idle channel puts it into the state from which the theorems count |
| `PaulaChannel.AudioChannel.StateMachine` | audio.cpp:1818-2035 | the switch with its recursive calls computes the specified step |
| `PaulaChannel.AudioChannel.AudxDat` | audio.cpp:2542-2642 | an arriving word counts or moves the state machine |
| `PaulaChannel.AudioChannel.DmaSlot` | custom.cpp:11152-11172 | a word is fetched if asked for; the pointer moves on, or is reloaded after the last word of a loop |
| `Decimal65C02.AdcAddsDigits` | 65c02core.cpp:510-524 | two packed digits are added exactly, with carry in and out |
| `Decimal65C02.SbcSubtractsDigits` | 65c02core.cpp:1146-1157 | two packed digits are subtracted exactly, with borrow in and out |
| `Decimal65C02.BinaryAddition` | 65c02core.cpp:526-531 | binary ADC is exact, and overflow means that the signed sum does not fit |
| `Decimal65C02.BinarySubtraction` | 65c02core.cpp:1160-1164 | binary SBC is exact, and overflow means that the signed difference does not fit |
| `Decimal65C02.AdcChainAdds` | 65c02core.cpp:502-534 | numbers of any length are added exactly, the last carry being the carry of the sum |
| `Decimal65C02.SbcChainSubtracts` | 65c02core.cpp:1140-1168 | numbers of any length are subtracted exactly, the last borrow being the borrow of the difference |
| `Decimal65C02.SbcUndoesAdc` | 65c02core.cpp:1140-1168 | SBC restores what ADC was given, also when the sum overflowed, and its last borrow says that it did |
| `Decimal65C02.DecimalOverflow` | 65c02core.cpp:502-534 | in decimal mode, for any bytes, ADC's overflow means that both operands have their top bit set, and SBC's repeats the carry |
| `Decimal65C02.Cpu.Adc` | 65c02core.cpp:502-534 | accumulator, flags and program counter after the macro, in both modes |
| `Decimal65C02.Cpu.Sbc` | 65c02core.cpp:1140-1168 | accumulator, flags and program counter after the macro, in both modes |
| `NordicPro.SwapBack` | ar.cpp:2271-2306 | a bit permutation is undone by the permutation whose map undoes its map, on numbers of any width |
| `NordicPro.DataInverse` | ar.cpp:2311-2334 | the byte swap of either chip has an explicit inverse, on both sides |
| `NordicPro.AddressInverse` | ar.cpp:2318-2343 | the address XOR and swap of either chip has an explicit inverse, on both sides |
| `NordicPro.DataBit` | ar.cpp:2311-2334 | for every bit of a descrambled byte, the bit it is taken from |
| `NordicPro.SourceBit` | ar.cpp:2308-2343 | for every bit of the address a byte is taken from, the bit of its own address, and whether it is inverted |
| `NordicPro.DescramblingIsABijection` | ar.cpp:2345-2354 | an explicit scrambler undoes the descrambler and is undone by it, on every 65536-byte image of either chip |
| `NordicPro.DescrambleNordicPro` | ar.cpp:2345-2354 | the loops rewrite the buffer in place to the descrambled image |

## Left out

- Calculator: tokenising of numbers and strings, string operands, the debugger's memory reads, the value of `?:` beyond `CalcRpn.TernaryTestsLeftover`, the 256-character buffers; a negative TCHAR is modelled by the character that has its 16-bit two's complement; `docalcx` is an abstract operator table, so rounding and division by zero are not modelled.
- CalcRpn.ExecutionOrder: string operands and the string result are not modelled; without quoted strings the program never has one.
- CalcRpn.ExecuteToken: likewise numbers only.
- Blitter: the 22 fast loops per direction are one loop parameterised by the minterm, its operands and the direction; addresses are words of chip RAM whose size divides 2^32 where the theorems need it; the general blitter, line and fill modes, odd addresses and cycle timing are not part of this model.
- A2065: the switch that turns the address exchange off (the model has it on), logging, packet capture, autoconfiguration, the multicast hash (one truth value), the CRC itself (a parameter of four bytes), interrupts; once a byte behind a packet buffer has been touched, nothing is said about what follows.
- A2065Receive.DeliverRun: the buffers must keep clear of each other and of the descriptors of the run; nothing is claimed about buffers laid over each other.
- A2065Queue: the two threads are interleaved critical sections; the semaphore itself is not part of this model; an exchange that leaves its buffer may leave the card in any state, but the queue as it was.
- AkikoC2p: accesses inside the four register bytes only; mirrors of the register and unaligned long accesses are left out.
- AkikoCd: what the drive returns in a response body and how a command changes the drive are parameters, so are sector DMA, subcode, audio and NVRAM; a reset in the middle of a packet or a command is not an event, runs start after it; the two 256-byte pages stand for guest memory.
- AkikoCdPort.Port.RunCommandRun: the bytes of a response and what a command does to the drive are parameters.
- AkikoCdPort.Port.HsyncHandler: sector DMA and subcode of the same routine are not modelled.
- ResolverCopy: the allocator's choice of a block is a parameter; guest memory is flat and ends below 2^32; C strings and arrays are sequences, a missing array being the same as an empty one.
- Atonce: the 286 is a list of I/O instructions, a run ending at its first trap; address translation, the I/O shadow in chip RAM, interrupt delivery and the screen hash (a parameter) are left out, and so is the 287 error line, which nothing raises. `struct atonce_s` is one record field that the methods update member by member.
- AtonceBoard.Atonce286.X86: whether an access traps and what is latched; the data that an IN returns and the I/O shadow are not modelled.
- AtonceBoard.Atonce286.ModeWrite: without the A20 gate and the acknowledgement of the 287.
- AtonceBoard.Atonce286.ResumeWrite: without the memory-mode shift bits and the delivery of an interrupt.
- AtonceBoard.Atonce286.HardReset: without the A20 and memory-mode bits and the interrupt vector.
- AtonceDisk: finding the partition, what a subtraction gives that overflows (a parameter), the memory mapping (memory is flat), write protection and read errors inside the image.
- Paula: DMA stays on and nothing is attached; periods and volumes, manual playback, filters, the period and fast-CPU hacks, and the delay of one cycle of events are left out; DMA slots are the immediate ones. `struct audio_channel_data` is one record field that the methods update member by member.
- PaulaChannel.AudioChannel.StateMachine: the branches with DMA on and nothing attached.
- PaulaChannel.AudioChannel.AudxDat: the branch with DMA on, without the event's delay of one cycle.
- Paula.PlaysTheLoop: needs punctual DMA; without it a word is repeated, which the other two theorems allow for.
- Decimal65C02: cycle counting and the dummy load; digits above 9 are computed as the macros do, and nothing further is said about them.
- NordicPro: images of 65536 bytes, the size of the program's copy buffer.
- The other files of the repository: CPU cores, memory banks, autoconfiguration, drivers and file access.
