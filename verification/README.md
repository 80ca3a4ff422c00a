# SlotAlert: a verified model

SlotAlert fills cancelled appointments: a business publishes a slot, waiting customers are alerted
over WhatsApp, and the first to answer gets it. Customers join the waiting list through a QR code
that is drawn in the browser. This project models three parts of the system in Dafny and proves what they guarantee,
and, where a guarantee the system advertises does not hold, exactly when it does.

## The QR encoder

Each stage has a specification of its own and a reader that undoes it.

- `GaloisField`, `GaloisTables`: bytes as polynomials modulo x^8+x^4+x^3+x^2+1, the power and
  logarithm tables, and the proof that x has order exactly 255.
- `PolynomialAlgebra`, `GeneratorPolynomial`, `ReedSolomon`: polynomials with the program's
  unassigned entries (`None`), products and remainders by logarithms, and why the logarithm of zero
  is never taken up to degree 254: the coefficients of the generator are q-binomials.
- `ErrorCorrection`: the distance of the code (section 7.5 of ISO/IEC 18004:2015).
- `FormatInformation`, `FormatDistance`: the BCH code of the format information (section 7.9) on
  32-bit words, and its distance of 7.
- `BitBuffer`, `Utf8`, `BlockTable`, `DataEncoding`: the data codewords (section 7.4).
- `Interleaving`, `Message`: the final message (section 7.6).
- `Masks`: the eight masks (section 7.8) as drawn figures, and what tells them apart.
- `Placement`, `FunctionPatterns`, `FreeModules`, `Symbol`: modules (section 7.7), the `QRCode` object
  and a scanner. The last results are `Symbol.QRCode.Make` and
  `Symbol.DamagedSymbol`: the finished symbol scans as the texts it was made from, in order,
  whenever they fit; a text with a code unit 0x80, 0x800 or surrogate, and no other, comes out as
  bytes that are not UTF-8. With damage within the limits of both codes, what the symbol carries
  is still determined.

What the code does differently from its header and from the standard: it knows versions 1 to 10
only (`src/static/qr.js:98`, `:230-241`), draws no version information for versions 7 to 10
(section 7.10), and encodes each UTF-16 code unit on its own with strict comparisons, hence the
excluded units above.

## Slots and broadcasts

`SlotProtocol` is a state machine over the steps of any number of processes on one row. A claim is
one conditional UPDATE. Cancelling, preparing and executing a broadcast load the row and later write
a status chosen from the loaded value; the ORM emits no UPDATE when the value is unchanged, so
cancelling a CANCELLED slot writes nothing. Each broadcast may be executed twice, in process and
through the queue. Runs are arbitrary sequences of steps; a crash is a run in which the write never
comes.

`BroadcastProtocol` is a second state machine, over the steps of any number of executions on the
logs: each reads which recipients have a log, sends to the others one by one and commits its logs
at the end, or dies with them.

`SlotService`, `BroadcastService` and `Broadcast` hold the methods themselves over the tables of
`Database.Store`. Their contracts state what they do to a row as the steps of `SlotProtocol` on any
state with that row, and `Broadcast.ExecutionIsRun` the alerts and logs as a run of
`BroadcastProtocol`.

README.md:122 of the repository shows a version test in the UPDATE and the docstring of
`claim_slot_atomic` promises strict zero overbooking. The UPDATE has no version test, and the promise
holds for racing claims (`RaceHasOneWinner`) and when no write acts on an outdated read
(`SerialRuns`), but not in general: `DoubleBooking` is a run after one press of the send button in
which two customers are told they have the slot, because both executions read SENDING before either
writes OPEN. Exactly: a run overbooks if and only if some claim of it meets OPEN at a version above
1 (`OverbookedIff`, `SecondWinIff`), and a settled slot can still be won again if and only if a
preparation, or an execution that saw SENDING, is between its read and its write (`WonAgainIff`).
`EveryInterleaving` with `BoundReached` says how far it can go.

The duplicate check of an execution (`src/tasks/broadcast_tasks.py:61-67`) promises one alert per
slot and customer. It holds for executions that do not overlap and do not die after sending (`AlertsAreUnique`), but each
broadcast is handed out twice, and `OverlapSendsTwice` is the run in which the customer hears twice.
Exactly: a send repeats an alert if and only if an execution that had not committed when this one
read has sent it (`RepeatIff`), and a run is free of repeats if and only if it has no such send
(`UniqueIff`). What executions under way can still do is harmless if and only if nobody they have
left was alerted and no two share a customer for the same slot (`UnderWayIff`).

## Supporting state machines

- `SpamGuard`: two alerts per 24 hours. The guard counts the SENT logs in the table, so four things
  get around it: checks that overlap (`OverlappingChecks`), the two executions of one broadcast
  (`TwoExecutionsOfOneCheck`), logs lost with their execution (`LostLogsReopenTheGuard`) and
  receipts that rewrite SENT (`ReceiptsReopenTheGuard`). Exactly: what can happen before the next
  check keeps the bound if and only if the alerts of the last 24 hours and the executions that can
  still send are at most two together (`PendingSendsIff`), so a check is sound if and only if it
  left that room for the executions it dispatched (`CheckIff`).
- `Webhook`: payload parsers, the duplicate guard, replays and interleavings. The guard marks a
  message before acting on it, so an action lost to an exception is not repeated; and a claim is
  committed before its texts are sent, so a worker that dies between the two leaves a successful
  claim whose customer was not told (`ClaimedUntoldIff`). Two customers can be told they won a slot
  when a broadcast brings it back to OPEN in between (`TwoAreTold`), and only then
  (`ToldHoldsSlot`).
- `Matching`: registrations as a cross product, opt-out, and the query over every run.
- `Slug`, `Decimal`: slugs as the words of a name, and the collision loop.
- `Phone`: ASCII phone numbers; a nine-digit spelling is accepted but not found by its variants.
- `Retry`: posts and total backoff, over real numbers.

## Parameters

Clocks, random numbers, the score of a drawn symbol, the answers of the HTTP and Redis servers, the order
in which the database lists customers, and Unicode classification (`str.isalnum`, lower case) are
parameters of the members that need them. A missing table entry or an unassigned array entry is
`None`; an exception is `Throws` or a `false` result.

## Model
| member | source | states |
|---|---|---|
| GaloisField.MulAssoc | src/static/qr.js:26-38 | Multiplication of bytes modulo x^8+x^4+x^3+x^2+1, the arithmetic behind the tables, is associative. |
| GaloisField.MulComm | src/static/qr.js:26-38 | It is commutative. |
| GaloisField.MulAddLeft | src/static/qr.js:26-38 | It distributes over exclusive or (`MulAddRight` is the other side). |
| GaloisField.ExpOrder | src/static/qr.js:26-38 | x has order exactly 255: x^255 is 1 and no smaller positive power is. |
| GaloisField.ExpInjective | src/static/qr.js:29-38 | The first 255 powers are pairwise different. |
| GaloisField.EveryByteIsAPower | src/static/qr.js:36-38 | Every nonzero byte is one of them, by counting. |
| GaloisField.LogExp | src/static/qr.js:36-38 | Logarithm after power gives the exponent back, for every exponent below 255. |
| GaloisTables.ExpRecurrence | src/static/qr.js:29-35 | The recurrence of EXP_TABLE holds for the powers of x. |
| GaloisTables.BuildExpTable | src/static/qr.js:26-35 | The table loop stores x^k at every k up to 255. |
| GaloisTables.BuildLogTable | src/static/qr.js:36-38 | The second loop stores the logarithm of every nonzero byte and leaves entry 0 unassigned. |
| GaloisTables.QRMath.Glog | src/static/qr.js:13-16 | Throws exactly on 0; an undefined argument gives an undefined logarithm. |
| GaloisTables.QRMath.Gexp | src/static/qr.js:17-21 | Terminates and returns x^(n mod 255) for every integer n. |
| GaloisTables.GexpPeriodic | src/static/qr.js:17-21 | gexp depends on n modulo 255 and on nothing coarser. |
| GaloisTables.LogAddIsMul | src/static/qr.js:58-68 | gexp(glog a + glog b) is the field product, for all nonzero bytes. |
| GeneratorPolynomial.GeneratorCoefficient | src/static/qr.js:278-284 | Coefficient k of the product of (z + x^i), i < n, follows the Pascal-like recurrence of the q-binomials. |
| GeneratorPolynomial.RatioHolds | src/static/qr.js:278-284 | Neighbouring coefficients are in the ratio of the q-binomial formula. |
| GeneratorPolynomial.NoZeroCoefficient | src/static/qr.js:13-16 | Up to degree 254 no coefficient is zero, so no logarithm of zero is taken. |
| GeneratorPolynomial.ZeroCoefficientAt255 | src/static/qr.js:278-284 | At degree 255 every inner coefficient is zero. |
| GeneratorPolynomial.GeneratorRoot | src/static/qr.js:278-284 | The degree-n generator vanishes at x^0 .. x^(n-1). |
| PolynomialAlgebra.EvalProduct | src/static/qr.js:58-68 | Evaluating a product is multiplying the values. |
| PolynomialAlgebra.MultipleVanishes | src/static/qr.js:69-78 | A multiple vanishes wherever the divisor does. |
| PolynomialAlgebra.SmallMultiple | src/static/qr.js:69-78 | A multiple of a monic divisor that is shorter than it is zero, so remainders are unique. |
| ReedSolomon.NewPolynomial | src/static/qr.js:43-49 | The constructor strips leading zeros and leaves the shifted tail unassigned. |
| ReedSolomon.AddRow | src/static/qr.js:60-65 | The inner product loop XORs c times e into place and throws exactly on a zero factor. |
| ReedSolomon.Multiply | src/static/qr.js:58-68 | Throws exactly when a zero coefficient meets a factor or the array length would be negative; otherwise the product, stripped. |
| ReedSolomon.GeneratorThrows | src/static/qr.js:278-284 | Multiplying the degree-i generator by (z + x^i) throws exactly at i = 255. |
| ReedSolomon.GetErrorCorrectPolynomial | src/static/qr.js:278-284 | Succeeds exactly up to length 255 and returns the product of (z + x^i). |
| ReedSolomon.ReducedShrinks | src/static/qr.js:69-78 | Every turn of mod clears the leading entry, which is why the recursion ends. |
| ReedSolomon.Mod | src/static/qr.js:69-78 | Terminates; returns the remainder for a divisor without zero coefficients, and otherwise throws exactly when the dividend is not shorter than the divisor. |
| ReedSolomon.RemainderDivides | src/static/qr.js:69-78 | Dividend plus remainder is an exact multiple of the divisor and the remainder is shorter. |
| ReedSolomon.EncodeBlock | src/static/qr.js:580-594 | The part of createBytes for one block yields its error-correction bytes for every length up to 254, unassigned entries at 255 exactly when every data byte is 0, and throws in every other case. |
| ReedSolomon.CodewordDivisible | src/static/qr.js:580-594 | For any data and any length up to 254, data followed by these bytes is a multiple of the generator. |
| ReedSolomon.CodewordSyndromes | src/static/qr.js:580-594 | It evaluates to zero at x^0 .. x^(n-1). |
| ReedSolomon.ErrorBytesUnique | src/static/qr.js:580-594 | No other n bytes complete the data to a multiple of the generator. |
| ErrorCorrection.Vandermonde | src/static/qr.js:580-594 | w nonzero coefficients at different points cannot make the first w power sums vanish. |
| ErrorCorrection.MinimumWeight | src/static/qr.js:580-594 | A nonzero multiple of the degree-n generator of at most 255 coefficients has more than n nonzero ones. |
| ErrorCorrection.MinimumDistance | src/static/qr.js:580-594 | Two different codewords differ in more than n bytes. |
| ErrorCorrection.UniqueDecoding | src/static/qr.js:580-594 | Up to n/2 wrong bytes leave one codeword within reach. |
| FormatInformation.GetBCHDigit | src/static/qr.js:254-261 | Counts the binary digits of a 32-bit word. |
| FormatInformation.GetBCHTypeInfo | src/static/qr.js:247-253 | Terminates by falling bit length and returns data and check bits, masked; which word that is for every level and mask says `Symbol.FormatWordIsStandard`. |
| FormatInformation.TypeInfoIsCodeword | src/static/qr.js:247-253 | Before the mask the word is a multiple of G15 over GF(2), its check bits are below 2^10 and the data stands above them. |
| FormatInformation.MultipleIffNoRemainder | src/static/qr.js:247-253 | The words the loop reduces to zero are exactly the multiples of G15. |
| FormatInformation.MultipleIsLong | src/static/qr.js:247-253 | A nonzero multiple has more than ten digits, so the check bits are determined. |
| FormatInformation.RemainderLinear | src/static/qr.js:247-253 | The remainder the loop computes is linear: that of a sum is the sum of those of its parts. |
| FormatInformation.WordIsSumOfParts | src/static/qr.js:247-253 | The unmasked word of any five data bits is the sum of the words of its single bits. |
| FormatDistance.SevenBitsApart | src/static/qr.js:247-253 | The words of two different data values differ in at least 7 of their 15 bits. |
| FormatDistance.ThreeWrongBits | src/static/qr.js:247-253 | Fifteen bits with at most three wrong come from one data value only. |
| FormatDistance.MaskedBits | src/static/qr.js:245-252 | The word differs from data and check bits in exactly the bits 1, 4, 10, 12 and 14, for all data of five bits. |
| BitBuffer.QRBitBuffer.PutBit | src/static/qr.js:177-183 | Appends one bit and changes no other, growing the buffer by bytes. |
| BitBuffer.QRBitBuffer.Put | src/static/qr.js:169-173 | Appends the lowest bits of a number, most significant first. |
| BitBuffer.FromBitsOf | src/static/qr.js:169-173 | Reading the bits back gives the number. |
| Utf8.QR8BitByte | src/static/qr.js:188-214 | The loop writes the bytes of every code unit in order. |
| Utf8.Utf8RoundTrip | src/static/qr.js:188-214 | An RFC 3629 decoder (sections 3 and 4) recovers the text exactly when no code unit is 0x80, 0x800 or a surrogate, and rejects the bytes otherwise. |
| BlockTable.GetRSBlocks | src/static/qr.js:128-154 | Expands a table row into its blocks; throws for an unknown version. |
| BlockTable.TableIsStandard | src/static/qr.js:100-121 | For every version 1 to 10 and level the row is that of the standard (table 9): so many blocks, of check bytes, of even size up to one byte. |
| BlockTable.BlocksFacts | src/static/qr.js:100-121 | For every version 1 to 10 and level: the blocks fill the symbol, each has 1 to 30 check bytes and at most 255 in all. |
| DataEncoding.WriteStream | src/static/qr.js:546-551 | Writes mode, count and bytes of every segment. |
| DataEncoding.CountIsStandard | src/static/qr.js:285-288 | The count has the width of the standard (section 7.4.1) for the versions 1 to 26. |
| DataEncoding.StreamNeeds | src/static/qr.js:546-551 | So the stream of a version has 4 bits, that width and 8 bits for each byte, segment by segment. |
| DataEncoding.FillBuffer | src/static/qr.js:543-566 | Throws exactly when the segments do not fit; otherwise the terminated and padded stream fills the data codewords exactly, and starts with mode 4 and the count of the first segment in 8 bits up to version 9 and in 16 in version 10. |
| DataEncoding.Terminate | src/static/qr.js:557-558 | Four zero bits if they fit, then zeros to the byte boundary. |
| DataEncoding.Pad | src/static/qr.js:559-564 | Padding bytes up to the capacity. |
| DataEncoding.PaddedIs | src/static/qr.js:557-564 | Behind the stream stand 4 to 11 zeros, or fewer than 8 if four do not fit, up to a byte boundary, and then only padding bytes. |
| DataEncoding.PaddingAlternates | src/static/qr.js:559-564 | They alternate 0xEC and 0x11. |
| DataEncoding.DataRoundTrip | src/static/qr.js:543-566 | For every version and level, a reader of the padded stream that takes the count widths from the standard recovers all segments that fit. |
| DataEncoding.ChooseVersion | src/static/qr.js:394-411 | The smallest version below 10 in which 4 bits, a count of the standard width and 8 bits per byte of every segment fit the data codewords, else 10. |
| Interleaving.Interleave | src/static/qr.js:602-613 | One interleaving loop writes each of its positions once and nothing else. |
| Interleaving.PositionsDistinct | src/static/qr.js:602-613 | Two entries of blocks of any lengths never share a position. |
| Interleaving.PositionUsed | src/static/qr.js:602-613 | Every position belongs to an entry. |
| Interleaving.DeinterleaveRecovers | src/static/qr.js:602-613 | De-interleaving recovers every block of any list of blocks. |
| Message.CreateBytes | src/static/qr.js:567-615 | For any blocks: throws exactly when one has more than 255 check bytes, or 255 and data that is not all zero; otherwise block cutting, error correction and both interleavings compute the final message. |
| Message.MessageReadBack | src/static/qr.js:567-615 | De-interleaving the message gives every data block and its error-correction bytes. |
| Message.CodewordsAreMessage | src/static/qr.js:567-615 | The data blocks of the message, one after the other, are the buffer, and every block is a codeword. |
| Message.MessageUnique | src/static/qr.js:567-615 | No other message has both properties for the same buffer. |
| Message.DamageIsCorrectable | src/static/qr.js:567-615 | With at most half as many wrong bytes per block as it has check bytes, no other message could have been sent. |
| Message.CreateData | src/static/qr.js:543-566 | Succeeds exactly for a known version that holds the segments; the result carries them. |
| Message.SegmentsReadBack | src/static/qr.js:543-615 | The segments of any message that carries some are read back as they are. |
| Message.TextsReadBack | src/static/qr.js:543-615 | Any message that carries texts reads back as those texts in order, each unreadable exactly when it has a code unit 0x80, 0x800 or a surrogate. |
| Message.CarriedOnce | src/static/qr.js:543-615 | A message carries one list of segments only. |
| Message.DamagedCarriesOnce | src/static/qr.js:567-615 | Bytes with correctable damage in every block come from one message and one list of segments only. |
| Masks.MaskIsFigure | src/static/qr.js:265-277 | Every mask flips the modules of its figure, six columns wide and drawn row by row, repeated over the symbol. |
| Masks.CornerFlipped | src/static/qr.js:265-277 | All masks flip the corner (0, 0). |
| Masks.LineMasks | src/static/qr.js:265-277 | Mask 0 changes with every step, mask 1 with every step down and none to the right, masks 2 and 3 flip one of any three neighbouring columns, the same in every row or shifted by one. |
| Masks.BlockMask | src/static/qr.js:265-277 | Mask 4 is constant on blocks of two rows and three columns and changes between neighbouring blocks. |
| Masks.ProductMasks | src/static/qr.js:265-277 | Mask 5 flips exactly where 6 divides the product of row and column, mask 6 where the product leaves less than 3, mask 7 where its remainder by 3 and the sum have the same parity. |
| Placement.VisitCell | src/static/qr.js:517-531 | Fills a free module with the next bit, flipped where the figure of the mask says so; leaves a decided one and the position alone. |
| Placement.MapData | src/static/qr.js:509-542 | Terminates and fills exactly the free modules along the zigzag in order, flipped by the figure of the mask. |
| Placement.ZigzagPath | src/static/qr.js:509-542 | For odd sides the path visits every module outside column 6 once and none in column 6. |
| Placement.ZigzagAt | src/static/qr.js:509-542 | Which module the path visits at each step: pairs of columns from the right, skipping column 6, up and down in turn, the right module of a row first. |
| Placement.PlacementCorrect | src/static/qr.js:509-542 | With column 6 decided: every module ends decided, decided ones keep their value, and reading back with the mask gives the codeword bits and then zeros. |
| Placement.ReadBackPlaced | src/static/qr.js:517-531 | Reading along any path without repetitions returns the bits written along it. |
| FunctionPatterns.SetupPositionProbePattern | src/static/qr.js:433-449 | Draws the rings of a finder pattern with its separator and nothing else. |
| FunctionPatterns.SetupPositionAdjustPattern | src/static/qr.js:473-491 | Over any symbol, draws every alignment pattern whose centre is undecided and nothing else; throws exactly for versions outside 1 to 10. |
| FunctionPatterns.AlignmentOverFinders | src/static/qr.js:473-491 | After the finder patterns these are all patterns but those in the three finder corners. |
| FunctionPatterns.SetupTimingPattern | src/static/qr.js:463-472 | Alternating modules where nothing was drawn before. |
| FunctionPatterns.SetupTypeInfo | src/static/qr.js:492-508 | Both copies of the fifteen format bits and the dark module, and nothing else. |
| FreeModules.FindersIntact | src/static/qr.js:414-432 | After all drawing the three finder patterns are complete. |
| FreeModules.AlignmentsIntact | src/static/qr.js:414-432 | So is every alignment pattern outside the finder corners. |
| FreeModules.TimingIntact | src/static/qr.js:414-432 | The timing patterns alternate from finder to finder, also through alignment patterns. |
| FreeModules.FormatIntact | src/static/qr.js:492-508 | Both copies of the format information and the dark module stand. |
| FreeModules.ColumnSixDecided | src/static/qr.js:463-472 | Column 6 is fully decided before data is placed. |
| FreeModules.RoomForCodewords | src/static/qr.js:414-432 | Every version leaves at least as many free modules as its codewords have bits. |
| Symbol.FormatWordTells | src/static/qr.js:492-494 | Level and mask can be read from the format word. |
| Symbol.FormatWordIsStandard | src/static/qr.js:245-253 | The word drawn for any level and mask is that of the standard (table C.1). |
| Symbol.QRCode.AddData | src/static/qr.js:380-384 | Appends the bytes of a text to the data. |
| Symbol.QRCode.DrawFunctions | src/static/qr.js:414-428 | Draws exactly the function modules of the version; throws for an unknown one. |
| Symbol.QRCode.MakeImpl | src/static/qr.js:414-432 | Succeeds exactly when version and data fit; then every module is decided and the codewords read with the mask carry the data. |
| Symbol.QRCode.GetBestMaskPattern | src/static/qr.js:450-462 | Draws the trial symbols of all eight masks and returns the first mask whose symbol has the lowest score. |
| Symbol.BestIsOne | src/static/qr.js:450-462 | The scores determine that mask: of equally good ones the first. |
| Symbol.QRCode.Make | src/static/qr.js:394-413 | Picks the version, succeeds exactly when the data fits it, draws with the best mask, and the finished symbol scans as all the texts added, in order. |
| Symbol.QRCode.IsDark | src/static/qr.js:385-390 | The module, or an exception outside the symbol. |
| Symbol.PlacedReadsBack | src/static/qr.js:428-431 | Codewords placed into the free modules of any version are read back in full. |
| Symbol.ScanReadsTexts | src/static/qr.js:394-432 | A scanner that takes level and mask from the format information recovers the texts of any symbol that carries them. |
| Symbol.FormatWordsApart | src/static/qr.js:492-494 | The format words of different choices of level and mask differ in at least 7 bits. |
| Symbol.LegibleFormat | src/static/qr.js:492-508 | With at most three wrong format bits a symbol has one level and one mask. |
| Symbol.DamagedSymbol | src/static/qr.js:414-432 | Modules seen with at most three wrong format bits and at most half as many wrong bytes per block as it has check bytes come from one level, one mask and one list of segments only. |
| SlotProtocol.StepInvariant | src/services/slot_service.py:86-137 | Every claim, read and write keeps the invariant on version, winner, dispatched executions and what pending processes know. |
| SlotProtocol.EveryInterleaving | src/services/slot_service.py:86-95 | For all interleavings: version - 1 is the number of successful claims, claimed_by is the last winner, wins are at most 1 plus the writes of OPEN, and those are at most two per broadcast. |
| SlotProtocol.LeavingTerminal | src/services/slot_service.py:161-176 | CLAIMED or CANCELLED is left exactly by a pending write of another status, always one whose read is out of date, and a CLAIMED row only by one that read before the winning claim. |
| SlotProtocol.SerialRuns | src/tasks/broadcast_tasks.py:38-75 | When no process overwrites the status after a change it did not see, CLAIMED and CANCELLED are never left and at most one claim ever succeeds. |
| SlotProtocol.SerialStep | src/services/broadcast_service.py:70-114 | The only status changes of such runs are OPEN to SENDING, CLAIMED or CANCELLED and SENDING to OPEN or CANCELLED. |
| SlotProtocol.RaceHasOneWinner | src/services/slot_service.py:86-137 | Among any number of claims racing on an OPEN slot, mixed with any reads, the first is answered 200 and every other 409. |
| SlotProtocol.BoundReached | src/services/broadcast_service.py:118-149 | k broadcasts can give one slot to 2k + 1 customers, so the bound on wins is exact. |
| SlotProtocol.WonAgainIff | src/tasks/broadcast_tasks.py:47-57 | A claimed or cancelled slot can be won again in some continuation exactly when a preparation, or an execution that saw SENDING, has read and not yet written. |
| SlotProtocol.SecondWinIff | src/services/slot_service.py:86-95 | In every run a claim is a further win of the slot exactly when it meets OPEN at a version above 1. |
| SlotProtocol.OverbookedIff | src/services/slot_service.py:86-95 | A run gives a slot to more than one claim exactly when some claim of it meets OPEN at a version above 1. |
| SlotProtocol.DoubleBooking | src/tasks/broadcast_tasks.py:137-141 | A run with a single broadcast in which two customers are both answered 200. |
| SlotService.CreateSlot | src/services/slot_service.py:21-36 | A new slot is OPEN, unclaimed, at version 1; no other slot changes. |
| SlotService.ClaimSlotAtomic | src/services/slot_service.py:46-145 | 404, 200 or 409 and the effect on the row, whatever the lock attempt came to; the lock is given back on every path unless its release fails; no other slot changes. |
| SlotService.ClaimUnlocked | src/services/slot_service.py:86-137 | The conditional UPDATE and its outcome: 200 and CLAIMED exactly for an OPEN row, 409 with the row as it is, 404 without one. |
| SlotService.CancelRead | src/services/slot_service.py:161-172 | 404, 400 or the loaded row; the write is pending exactly when the step Start of the protocol makes it so. |
| SlotService.Commit | src/services/slot_service.py:174-176 | Writes the status over whatever the row holds by then, unless it equals the value loaded: the step Finish of the protocol for every process with that write. |
| SlotService.CancelSlotByOwner | src/services/slot_service.py:148-177 | With nothing in between: 404, 400 when CLAIMED, else CANCELLED; the row is what Start and Finish of the protocol leave. |
| BroadcastService.FilterSpamCandidates | src/services/broadcast_service.py:29-52 | Returns the allowed candidates in order and counts the others. |
| BroadcastService.EligibleKeeps | src/services/broadcast_service.py:29-52 | An allowed candidate stays as often as it is listed, any other is gone. |
| BroadcastService.PrepareAndQueueBroadcast | src/services/broadcast_service.py:55-159 | 404, 409 or 400 by status; otherwise SENDING and up to two equal jobs exactly when someone is eligible; row and jobs are what Start and Finish of the protocol leave. |
| Broadcast.ExecuteSlotBroadcast | src/tasks/broadcast_tasks.py:21-141 | With nothing in between: the alerts and logs of one execution (`ExecutedRows`); a slot found is never left SENDING, no other status changes, and the row is what Start and Finish of the protocol leave. |
| Broadcast.ExecutedRows | src/tasks/broadcast_tasks.py:61-135 | An execution alerts exactly the recipients who exist and have no log for the slot, nobody twice, and logs each alert at the same place, SENT if the provider took the message and FAILED if the call raised. |
| Broadcast.AlreadyAlerted | src/tasks/broadcast_tasks.py:61-67 | The recipients that have a log for the slot. |
| Broadcast.SelectCustomers | src/tasks/broadcast_tasks.py:77-79 | Each pending customer once, in the order of the answer. |
| Broadcast.DispatchAll | src/tasks/broadcast_tasks.py:94-135 | One alert and one log per customer, in order, appended to what was there. |
| Broadcast.ExecutionIsRun | src/tasks/broadcast_tasks.py:61-137 | What the method does to logs and alerts is a run of the broadcast protocol: one read, its sends, one commit. |
| BroadcastProtocol.StepValid | src/tasks/broadcast_tasks.py:61-137 | Every read, send, commit, crash, owner notification and receipt, in any interleaving, keeps the invariant on logs, alerts and executions under way. |
| BroadcastProtocol.OneLogPerAlert | src/tasks/broadcast_tasks.py:94-135 | In every interleaving an execution that committed wrote one log for each of its alerts, in order, SENT or FAILED, and alerted nobody twice. |
| BroadcastProtocol.RepeatIff | src/tasks/broadcast_tasks.py:61-77 | In every interleaving an execution about to send repeats an alert exactly when one was sent by an execution that had not committed when this one read the logs. |
| BroadcastProtocol.UniqueIff | src/tasks/broadcast_tasks.py:61-137 | A run sends no customer two alerts for one slot exactly when it has no such send. |
| BroadcastProtocol.ReadIff | src/tasks/broadcast_tasks.py:61-77 | In every interleaving an execution that reads now finds somebody to alert again exactly when an execution dead or under way has alerted one of its recipients who has no log. |
| BroadcastProtocol.RepeatsComeFromOverlap | src/tasks/broadcast_tasks.py:61-77 | Two equal alerts come from different executions, the later from one that had not seen the logs of the earlier. |
| BroadcastProtocol.UnderWayIff | src/tasks/broadcast_tasks.py:61-137 | In a world without repeats, everything the executions under way can still do repeats no alert exactly when nobody they have left was alerted and no two of them have a customer left for the same slot. |
| BroadcastProtocol.AlertsAreUnique | src/tasks/broadcast_tasks.py:61-137 | When no execution reads while another is under way, or after one died having sent alerts, no customer is sent two alerts for one slot, whatever the recipient lists, receipts and owner notifications. |
| BroadcastProtocol.OverlapSendsTwice | src/services/broadcast_service.py:118-149 | A run of the two executions of one broadcast, both reading before either commits, ends with two equal alerts and two equal logs. |
| SpamGuard.CountSent | src/services/messaging/spam_guard.py:38-49 | Counts the logs that belong to the customer, are SENT and are not older than the cutoff. |
| SpamGuard.CanSendNotification | src/services/messaging/spam_guard.py:15-63 | Allowed exactly when fewer than two logs in the table belong to the customer, are SENT and not older than 24 hours, with or without Redis; the counter is overwritten with the count. |
| SpamGuard.LogCounts | src/services/messaging/spam_guard.py:38-59 | A log anywhere in the table adds to the count if it is of the customer, SENT and not older than 24 hours; any other log changes no answer. |
| SpamGuard.SendIff | src/services/messaging/spam_guard.py:37-63 | An alert keeps the bound exactly when at most one was sent in the 24 hours up to it. |
| SpamGuard.BoundedIff | src/services/messaging/spam_guard.py:37-63 | A run keeps the bound exactly when each of its alerts was sent after at most one in the 24 hours up to it. |
| SpamGuard.PendingSendsIff | src/services/broadcast_service.py:118-149 | Out of any reachable state that keeps the bound, everything that can happen before the next check keeps it exactly when the alerts of the last 24 hours and the executions that can still send, both of each broadcast, are at most two together. |
| SpamGuard.CheckIff | src/services/messaging/spam_guard.py:37-63 | A check that dispatches k executions can be followed by alerts that break the bound, before any other check, exactly when the alerts of the last 24 hours, the executions that can still send and those k (none if the slot has a log) are more than two. |
| SpamGuard.StepBounded | src/services/messaging/spam_guard.py:37-63 | Every check with room, read, send, end without an alert, commit or loss of a log, other log and receipt keeps the bound and that condition. |
| SpamGuard.RoomyRuns | src/services/messaging/spam_guard.py:37-63 | A run in which every check has room for all executions it dispatches keeps the bound, whatever the logs say. |
| SpamGuard.OneByOneHasRoom | src/services/messaging/spam_guard.py:37-63 | When a check dispatches one execution, no other can still send, and the table has all alerts of the last 24 hours as SENT, the count of the guard gives it room. |
| SpamGuard.CarefulBounded | src/tasks/broadcast_tasks.py:94-141 | If each alert of the 24 hours up to an alert had its SENT log in the table at the check behind it, every reachable state keeps the bound, with logs committed late, lost or rewritten and executions that fail, skip or never send. |
| SpamGuard.AtMostTwoIn24Hours | src/services/messaging/spam_guard.py:37-63 | In such a run any closed 24-hour window holds at most two alerts, however late each is sent after its check. |
| SpamGuard.OrderlyIsCareful | src/tasks/broadcast_tasks.py:61-141 | Also when each broadcast is executed twice, a run is such a run if checks find nobody able to send and all alerts of the last 24 hours as SENT, executions read only when no other is between read and commit, and no log of an alert is lost. |
| SpamGuard.OverlappingChecks | src/services/broadcast_service.py:41-52 | Three checks before any of the sends put three alerts into one instant. |
| SpamGuard.TwoExecutionsOfOneCheck | src/services/broadcast_service.py:118-149 | So does one check after one logged alert, when both executions of its broadcast read before either commits; it had room for one execution. |
| SpamGuard.LostLogsReopenTheGuard | src/tasks/broadcast_tasks.py:94-141 | So do alerts one after the other whose logs die with their executions. |
| SpamGuard.ReceiptsReopenTheGuard | src/tasks/webhook_tasks.py:89-124 | A delivery receipt takes an alert out of the count, so a third alert passes at once. |
| SpamGuard.OwnerNotesBlock | src/services/notification_service.py:62-71 | Two owner notifications, logged as SENT for the customer, block every alert to him for 24 hours. |
| Webhook.ClaimPayloadRoundTrip | src/tasks/webhook_tasks.py:28-42 | Both forms of claim payload are read as the slot and customer they name. |
| Webhook.ClaimForms | src/tasks/webhook_tasks.py:28-42 | A payload names a claim exactly when it has three parts, or five or more of which the second is slot, the first is claim, and both numbers parse. |
| Webhook.SignedParses | src/tasks/webhook_tasks.py:28-42 | A number with a sign is read with its sign. |
| Webhook.OptoutPayloadRoundTrip | src/tasks/webhook_tasks.py:45-62 | The opt-out payloads are read as the customer or phone number they name. |
| Webhook.OptoutForms | src/tasks/webhook_tasks.py:45-62 | A payload names an opt-out exactly when its first part is optout, followed by a number alone, by cust and a number, or by phone and something. |
| Webhook.ButtonCountsFirst | src/tasks/webhook_tasks.py:150-165 | A template button counts before a reply and a reply before a text, and either does the same. |
| Webhook.OtherTextsIgnored | src/tasks/webhook_tasks.py:159-169 | A text that is not one of the five stop words does nothing, nor does an empty reply. |
| Webhook.Worker.ProcessMessages | src/tasks/webhook_tasks.py:130-275 | The message loop: guard, action, and the exception that ends it, as a function of the old state. |
| Webhook.Worker.HandleClaim | src/tasks/webhook_tasks.py:174-235 | For known ids: an OPEN slot becomes CLAIMED by the customer at the next version, with winner and owner texts; otherwise the lost-race text; for unknown ids or 0 nothing. |
| Webhook.Worker.HandleOptout | src/tasks/webhook_tasks.py:237-270 | By id: the preferences of an existing customer go and one text is sent. By phone number what `OptoutByPhone` says. |
| Webhook.OptoutByPhone | src/tasks/webhook_tasks.py:249-265 | When exactly one customer has the number in some spelling, his preferences go and he gets the text; with none nothing changes; with several nothing changes and the payload ends. |
| Webhook.StopWordOptsOut | src/tasks/webhook_tasks.py:160-265 | A text with a stop word from the digits of a mobile number opts out the one customer whose number normalises to it, nobody when there is none, and ends the payload when there are several. |
| Webhook.AbortIff | src/tasks/webhook_tasks.py:238-258 | A message ends its payload exactly when it is new, asks to opt out without an id, and several customers share the number it names, or that of its sender if it names none. |
| Webhook.ReachedIs | src/tasks/webhook_tasks.py:130-275 | A payload that ends in an exception ends at the last message reached, and those before it pass. |
| Webhook.ReplayDoesNothing | src/tasks/webhook_tasks.py:130-141 | Delivering a payload of messages with ids again, after any other payloads, does what delivering only the messages behind the one that raised would do, so nothing if none raised. |
| Webhook.AtMostOneAction | src/tasks/webhook_tasks.py:130-141 | Across any number and interleaving of workers each non-empty id leads to at most one action. |
| Webhook.OneAtATime | src/tasks/webhook_tasks.py:130-275 | In every interleaving a worker with a message to act on has no text of the last one still to send. |
| Webhook.TextsAgreeWithSlots | src/tasks/webhook_tasks.py:202-235 | For every interleaving of workers with claims over HTTP and status writes of broadcasts and owners: the version tells the number of successful claims and the claimant the last, claims balance the times the row left CLAIMED, and the texts due to winners tell the claims made by workers, in order. |
| Webhook.UndisturbedSlot | src/tasks/webhook_tasks.py:202-235 | While nobody but workers touches a slot, at most one winner text is due, and the slot is as it was or claimed by that customer. |
| Webhook.ToldHoldsSlot | src/tasks/webhook_tasks.py:205-221 | In all those interleavings anyone told of having won a slot made a successful claim, and while no write takes the slot out of CLAIMED he holds it and is the only one told. |
| Webhook.WonAgainIff | src/tasks/webhook_tasks.py:205-221 | A claimed slot is claimed again in the rest of a run exactly when a write takes it out of CLAIMED and it is CLAIMED at the end, or writes take it out twice. |
| Webhook.TwoAreTold | src/tasks/webhook_tasks.py:205-221 | A run with one write of OPEN between two claims in which both customers are told. |
| Webhook.ClaimedUntoldIff | src/tasks/webhook_tasks.py:205-221 | In all those interleavings the successful claims are those over HTTP and those whose text is waiting, told or lost; so one succeeded without its customer being told exactly when it was made over HTTP, its worker is between commit and text, or its text was lost. |
| Webhook.GoneIff | src/tasks/webhook_tasks.py:205-221 | A text is lost exactly when its worker died at some event while it was due. |
| Webhook.OptoutIsWaitlistOptOut | src/tasks/webhook_tasks.py:237-265 | An opt-out by id deletes exactly the preference rows that the runs of the waitlist assume. |
| Webhook.EmptyIdRepeats | src/tasks/webhook_tasks.py:130-141 | A message without an id is acted on at every delivery. |
| Matching.Waitlist.RegisterCustomerOptin | src/services/customer_service.py:29-90 | Updates the row of the business with this phone number or adds one, and touches no other row; replaces the preference rows; 404 and no change for an unknown business. |
| Matching.BuildMatrix | src/services/customer_service.py:74-86 | The triple loop builds the preference matrix. |
| Matching.DayRowsHave | src/services/customer_service.py:74-86 | The matrix holds exactly the combinations of day, time and service, also with duplicate entries. |
| Matching.WithoutHas | src/services/customer_service.py:58-60 | Deleting the rows of a customer leaves each other row as often as it was there. |
| Matching.OneCustomerEach | src/services/customer_service.py:46-70 | Over every run whoever registered with a business has exactly one row there. |
| Matching.StepValid | src/services/customer_service.py:46-90 | Every registration and opt-out keeps the rows equal to the latest registrations not revoked. |
| Matching.JoinHas | src/services/matching_service.py:33-53 | The join lists exactly the customers of the business with a row that fits. |
| Matching.DistinctOrdered | src/services/matching_service.py:41-55 | Sorted by id without duplicates and with the same members. |
| Matching.MatchingIsExact | src/services/matching_service.py:20-64 | Over every run the query returns, increasing and without duplicates, exactly the customers whose last registration under their number with the business, not revoked since, includes day, time and either no service or that of the slot; a slot without a service matches unrestricted customers only. |
| Slug.SlugifyName | src/services/business_service.py:21-33 | The character loop and the clean-up compute the slug. |
| Slug.SlugifyShape | src/services/business_service.py:21-33 | a-z, 0-9 and single hyphens, not empty, no leading hyphen, at most 40 characters, a trailing hyphen only when cut at 40. |
| Slug.SlugIsWords | src/services/business_service.py:21-33 | The slug is the runs of a-z and 0-9 of the transliterated name, joined by hyphens and cut off after 40 characters; without any it is biz- and six random digits. |
| Slug.LetterReads | src/services/business_service.py:13-26 | A Hebrew letter reads as its Latin spelling, wherever it stands. |
| Slug.Latin | src/services/business_service.py:13-18 | The spellings of alef to tav, final forms in their places, and nothing for other characters. |
| Slug.OtherDropped | src/services/business_service.py:27-28 | Any other character that is not alphanumeric, a space, a hyphen or an underscore makes no difference. |
| Slug.SeparatorsSplit | src/services/business_service.py:27-30 | A space, a hyphen or an underscore separates words. |
| Slug.SlugifyAgain | src/services/business_service.py:21-33 | Slugifying a slug again changes it exactly when it ends in a hyphen. |
| Slug.ResolveCollision | src/services/business_service.py:75-84 | Terminates for every finite set of taken slugs after at most one counter more than slugs are taken, with the first free candidate. |
| Slug.NumberedInjective | src/services/business_service.py:83 | Different counters give different candidates. |
| Slug.NumberedShape | src/services/business_service.py:83 | A numbered candidate keeps the alphabet and the first 35 characters, does not start with a hyphen, and fits 40 characters up to counter 9999. |
| Decimal.DecimalRoundTrip | src/services/business_service.py:83 | A decimal numeral determines its number. |
| Phone.CleanE164Whatsapp | src/utils/phone.py:5-43 | The cleaning steps and the two error conditions. |
| Phone.CleanOfDigits | src/utils/phone.py:26-43 | Ten to fifteen digits are kept; 0 and eight or nine digits get the country code; any other number of digits is an error. |
| Phone.NoiseIgnored | src/utils/phone.py:21-24 | A character that is neither a digit nor a plus sign makes no difference to cleaning and normalising. |
| Phone.CleanIdempotent | src/utils/phone.py:5-43 | Cleaning is idempotent. |
| Phone.NormalizeIdempotent | src/schemas/customer.py:7-42 | Normalising is idempotent, and cleaning a normalised number only drops the plus. |
| Phone.NormalizeIs | src/schemas/customer.py:7-42 | The spellings of a mobile number are exactly 05 and eight digits, the same without the 0, and with the country code. |
| Phone.CleanOfDisplay | src/utils/phone.py:72-81 | Cleaning what is displayed gives what cleaning the number gives, for every input. |
| Phone.DisplayNormalizes | src/utils/phone.py:72-81 | The display form of a valid number normalises to it and is its domestic form with a hyphen after the third digit. |
| Phone.GetPhoneSearchVariants | src/utils/phone.py:46-69 | Collects the variants, also for numbers that do not clean. |
| Phone.VariantsOfDigits | src/utils/phone.py:46-69 | Digits are searched as they are and with a plus; an Israeli number also in its domestic form; a domestic number with the country code instead of the 0. |
| Phone.DigitsKept | src/utils/phone.py:62-67 | Of a number that does not clean the digits are searched, all of them in their order. |
| Phone.TrimIs | src/utils/phone.py:52-53 | White space is cut off at both ends and nothing else. |
| Phone.VariantsFindNormalized | src/utils/phone.py:46-69 | For an accepted spelling the normalised number is among its variants exactly when it was not given with nine digits. |
| Retry.PostWithRetry | src/services/messaging/whatsapp/client.py:139-185 | At most n + 1 posts, retried exactly after network errors and the statuses 429, 500, 502, 503 and 504, total sleep at most b(2^n - 1) + 0.5n, the last outcome decides the result, a rate limit reported with retries left was told by the error code, and the final raise only for negative n. |
| Retry.Settle | src/services/messaging/whatsapp/client.py:167-183 | Success exactly below status 400 with JSON, an API error exactly from 400 on unless the error entry is no object, else the exception itself. |
| Retry.Classify | src/services/messaging/whatsapp/client.py:110-137 | The codes 190, 131047 and 131030 decide first; a rate limit is code 130429, or status 429 with none of those. |
| Retry.TotalPauseBound | src/services/messaging/whatsapp/client.py:157-181 | The sleeps add up to b(2^k - 1) and the jitter of each, which lies between 0.1k and 0.5k in all. |

## Left out
- The mask score `getLostPoint`: a heuristic with float arithmetic; the choice is proved for any score of a symbol.
- SVG output, fallback image, web pages and routers: user interface and wiring.
- The four-byte branch of the UTF-8 encoder: it needs a code unit above 0x10000, which a JavaScript string does not have.
- Versions above 10 in `getPatternPosition` and `getRsBlockTable`: the tables end there, and the model throws as the code does.
- The module read of `isDark` before the first `make`: the model starts from an empty symbol instead of `null`.
- FunctionPatterns.SetupTimingPattern: stated for sides of at least 21, the smallest there is.
- FunctionPatterns.SetupTypeInfo: stated for sides of at least 21, the smallest there is.
- ReedSolomon.Mod: stated for a divisor whose leading entry is assigned and a dividend without leading zeros, which the constructor guarantees; for an unassigned leading entry the recursion of the program need not end.
- Interleavings inside the service methods: `SlotService`, `BroadcastService` and `Broadcast` methods run undisturbed; what happens between their reads and writes is the subject of `SlotProtocol` and `BroadcastProtocol`.
- Broadcast.ExecuteSlotBroadcast: alerts go out one after the other, in the order of the query; the ten at a time of the program differ in nothing but the order of alerts and logs.
- SlotService.ClaimSlotAtomic: the Redis lock has no expiry and waiting for it is one outcome among three; it never decides a claim.
- Webhook.Worker.ProcessMessages: delivery receipts, read marks, failures of the message provider and the loss of Redis are not part of the method; receipts appear in `SpamGuard` and `BroadcastProtocol`, a provider that fails after the commit of a claim as a crash in `Webhook.ClaimedUntoldIff`.
- Webhook.Worker.HandleClaim: the log of the owner notification is not part of its state; it appears in `SpamGuard` and `BroadcastProtocol`.
- Webhook.AtMostOneAction: holds within the lifetime of the keys; their expiry after 24 hours is not modelled.
- Opt-out by a phone number that several businesses share raises an exception; the run properties of `Matching` cover opt-out by customer id.
- Message.CreateBytes: stated for blocks that have no fewer codewords than data codewords, as every row of the table has.
- Messages the provider delivers although its call raised, or delivers twice: an alert is a call that returned.
- Matching.MatchingIsExact: deleting a service, which turns its preference rows into unrestricted ones, is not an operation of the runs.
- The validators of days and time slots, the computation of day and time slot from a date, and the welcome text of a registration.
- Slug.SlugifyName: the name arrives in lower case, and which characters are alphanumeric is a parameter.
- Phone.CleanE164Whatsapp: ASCII digits and white space only; the country code is the default 972.
- The message texts of API errors and the identifiers of traces; `Retry` keeps their classes.
- The Redis counter of alerts is written but never decides anything; its increment after a send is not modelled.
- HMAC signatures, sessions, PIN login, migrations, settings and seed scripts.
