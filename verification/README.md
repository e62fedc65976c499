# Hybrid-ARQ image transmission simulator, modelled in Dafny

This project models the packet-delivery core of a hybrid-ARQ simulator. The simulator sends the pixel bytes of an image over a noisy channel in 64-byte packets. Each packet gets up to ten attempts. An attempt sends the packet with an error-detection checksum appended. When the receiver's check fails, Reed-Solomon correction symbols are sent as well. A corrected payload is accepted only if it carries the checksum frozen in the packet's frame before sending.

The model covers these parts:

- `detection.dfy` (module `ErrorDetection`): the four detection codes, Parity, CRC8, CRC16 and CRC32, as one closed datatype. CRC-32 is defined as in section 8 of RFC 1952, the zlib CRC. CRC8 and CRC16 keep its low 8 and 16 bits.
- `frame.dfy` (module `Frames`): the immutable `Frame` record and `create_frame`.
- `correction.dfy` (module `ErrorCorrection`): the Reed-Solomon wrapper as an interface. Its codec is two function-valued fields, held to the length laws of a systematic code on one GF(256) block.
- `channel.dfy` (module `Channels`):
  - MSB-first byte/bit conversion, as loops over sequences proved against the recursive functions `ToBits` and `FromBits`;
  - the binary symmetric channel, as a length-preserving flip of bits driven by injected draws;
  - the `channel_transmit` dispatch.
- `gilbert_elliott.dfy` (module `GilbertElliott`): the two-state Markov channel, as a class with mutable `state` and per-state counters. `transmit` and `transmit_bits` are loops. They are proved equal to the pure step functions `ByteStep`/`BitStep`, folded by `Run`/`RunBits`, and every property is proved about those functions.
- `randomness.dfy` (module `Randomness`): Python's `random` module as a class with a cursor into an injected oracle. The draw order the channel and the pipeline rely on is explicit.
- `pipeline.dfy` (module `Pipeline`): the retry loop of `run_image_transmission`.
  - `Attempt` is one attempt.
  - `TransmitPacket` is all attempts for one packet, plus the bookkeeping.
  - `RunImageTransmission` is the loop over packets.
  - The receiver's decision is the pure function `Judge`. What one attempt does to the channel is the ghost function `AttemptTransfer`, over the channel conditions `Channel.Current` and `Channel.Transfer`. Each attempt is recorded as a ghost `Trial`: what arrived and the verdict on it.
  - `PacketRun` states what one packet did between two channel conditions and two generator cursors. `Runs` chains the packets of a run, each from where the previous one left the channel and the generator.
  - Each packet's outcome records the accepted verdict, the attempt number and what arrived, or that the packet was lost. The bookkeeping is specified by `Histogram`, `LostCount` and `Flatten` over these outcomes.
  - A Gilbert-Elliott channel and the filler bytes of lost packets draw from one shared `random` generator. The filler is stated draw by draw (`Drawn`), and it advances the channel's generator too (`AfterFiller`).
- `bytes.dfy` and `wrappers.dfy`: byte arithmetic (powers of two, shifts, bit extraction, exclusive or, sums) and `Option`.

Two behaviours of the code are modelled as written.

- After a failed direct decode, the Reed-Solomon decoder receives the bytes that crossed the channel followed by the correction symbols as the sender computed them. The transmitted copy of the correction symbols (src/pipeline.py:129) only advances the channel state (src/pipeline.py:133).
- A lost packet always appends 64 random bytes (src/pipeline.py:166). When the last packet is shorter, the output is therefore longer than the input (`Pipeline.ReceivedLength`).

Some further behaviours of the code are worth noting:

- CRC8 and CRC16 are the low 8 and 16 bits of CRC-32, not CRCs over polynomials of their own (src/error_detection_code.py:51, 68).
- A correction success counts in histogram slot `retries + 1`, a direct success in slot `retries` (src/pipeline.py:151, 161). A packet corrected on attempt 10 therefore counts in slot 11.
- The detection codes work on whole bytes only; only the channel converts to bits.

## Model

| member | source | states |
|---|---|---|
| ErrorDetection.Crc32 | src/error_detection_code.py:86 | `zlib.crc32` is a 32-bit value |
| ErrorDetection.DetectionCode.Checksum | src/error_detection_code.py:34-35 | each checksum is below its bound: 2 for parity, 2^8 for CRC8 (`& 0xFF`), 2^16 for CRC16 (`& 0xFFFF`), 2^32 for CRC32 |
| ErrorDetection.DetectionCode.ChecksumBytes | src/error_detection_code.py:56 | the trailer is 1, 1, 2 or 4 bytes, one byte per 8 checksum bits |
| ErrorDetection.DetectionCode.Encode | src/error_detection_code.py:19-21 | encoding appends exactly Width bytes (1/1/2/4) and keeps the payload as its prefix |
| ErrorDetection.DetectionCode.Decode | src/error_detection_code.py:23-32 | an accepted input yields its prefix, Width bytes shorter |
| ErrorDetection.DetectionCode.Trailer | src/error_detection_code.py:27-28 | the checksum `decode` reads from the trailer is below 2^32, and for the CRC codes below the code's bound (1, 2 or 4 bytes read big-endian) |
| ErrorDetection.ClassNameIdentifies | src/frame.py:11 | the `type(code).__name__` recorded in a frame (ParityCode, CRC8, CRC16, CRC32) is different for each code |
| ErrorDetection.TrailerOfChecksumBytes | src/error_detection_code.py:73-78 | reading the big-endian trailer back gives the appended checksum (CRC16: high byte times 256 plus low byte; CRC32: four bytes shifted by 24, 16, 8 and 0) |
| ErrorDetection.ChecksumBytesOfTrailer | src/error_detection_code.py:59-60 | conversely, the trailer bytes are exactly the checksum bytes of the value they decode to |
| ErrorDetection.DecodeEncode | src/error_detection_code.py:19-33 | for every code, `decode(encode(d)) == d`, and decoding an encoding never raises |
| ErrorDetection.DecodeAcceptsExactlyEncodings | src/error_detection_code.py:42-48 | `decode(x) == d` if and only if `x == encode(d)`, for every code |
| ErrorDetection.ParityDecode | src/error_detection_code.py:23-32 | parity decode rejects empty input and any trailer above 1, and otherwise accepts exactly when `sum(data[:-1]) % 2` equals the last byte |
| ErrorDetection.ParityDetectsOddMasks | src/error_detection_code.py:18-32 | corrupting one payload byte by XOR with a non-zero mask is caught exactly when the mask is odd; corrupting the parity byte is always caught |
| Frames.CreateFrame | src/frame.py:9-11 | the frame keeps `packet_num` and `data`, records the codec's class name, and freezes the codec's checksum of the unmodified data; being a function of data and codec only, equal data give equal checksums |
| Frames.FrameChecksumIsTrailer | src/frame.py:9-10 | the frozen checksum is the trailer of the clean encoding, and the payload decoded from it matches the frame |
| ErrorCorrection.CorrectionCode.Encode | src/error_correction_code.py:9-15 | for a well-formed code on one block, the returned correction data is exactly `nsym` bytes |
| ErrorCorrection.CorrectionCode.Decode | src/error_correction_code.py:17-27 | `None` on failure; a decoded message is `nsym` bytes shorter than its codeword |
| Bytes.HornerByte | src/channel.py:35-38 | helper for `BitsToBytes`: eight bits folded MSB-first, shifting left and or-ing in each bit, give a value below 256 |
| Bytes.Xor | src/gilbert_elliott_channel.py:21 | `byte ^ m` differs from `byte` exactly when the mask is non-zero, and its lowest bit is the exclusive or of the lowest bits |
| Bytes.Sum | src/error_detection_code.py:20 | `sum(data)` is at most 255 per byte |
| Channels.ByteBits | src/channel.py:23-24 | one byte unpacks to eight bits |
| Channels.ToBits | src/channel.py:20-25 | `_bytes_to_bits` gives eight bits per byte |
| Channels.ToBitsAt | src/channel.py:20-25 | bit `8k+i` of `_bytes_to_bits(b)` is `(b[k] >> (7 - i)) & 1` |
| Channels.Padded | src/channel.py:29-31 | padding makes the length a multiple of 8 and adds fewer than 8 bits |
| Channels.FromBitsLength | src/channel.py:27-39 | `_bits_to_bytes` of n bits returns `ceil(n / 8)` bytes; with `FromBitsToBits` and `ToBitsFromBits` this is what is stated about the function `FromBits` |
| Channels.FromBitsToBits | src/channel.py:20-39 | `_bits_to_bytes(_bytes_to_bits(b)) == b` |
| Channels.ToBitsFromBits | src/channel.py:27-39 | unpacking the packed bytes gives the bits back followed by zero padding at the end |
| Channels.Channel.BytesToBits | src/channel.py:20-25 | the nested loop builds `ToBits(byte_data)`, eight bits per byte |
| Channels.Channel.BitsToBytes | src/channel.py:27-39 | the pad-then-accumulate loop builds `FromBits(bit_list)` |
| Channels.Flip | src/channel.py:52 | the binary symmetric channel preserves length and delivers each bit as sent or inverted |
| Channels.FlipNothing | src/channel.py:52 | crossover probability 0 flips nothing |
| Channels.BinarySymmetricChannel.Apply | src/channel.py:52 | `channel(bits)` returns the flips of the next draws and consumes one draw per bit |
| Channels.BscNoiseless | src/channel.py:46-59 | the binary symmetric path with probability 0 returns its input |
| Channels.Channel.constructor | src/channel.py:7-18 | BSC builds a fresh flip channel with the given probability; GilbertElliott builds a fresh channel in the good state with zero counters |
| Channels.Channel.Transfer | src/channel.py:43-61 | what `channel_transmit` delivers from a given channel condition has the input's length and keeps the condition's kind (draw count for BSC, Gilbert-Elliott state otherwise) |
| Channels.Channel.TransferNoiseless | src/channel.py:46-59 | with every error probability 0, `channel_transmit` delivers its input from every condition |
| Channels.Channel.ChannelTransmit | src/channel.py:43-61 | the output and the new channel condition are `Transfer` of the old condition: for BSC unpack, flip with one draw per bit, repack; otherwise exactly `self.channel.transmit(data)`. The output has the input's length, and with every error probability 0 it is the input |
| Randomness.IntAt | src/gilbert_elliott_channel.py:21 | `randint(lo, hi)` lies in `lo..hi` |
| Randomness.RandomSource.Random | src/gilbert_elliott_channel.py:20 | `random()` returns the next uniform draw and consumes it |
| Randomness.RandomSource.RandInt | src/pipeline.py:166 | `randint(lo, hi)` returns the next integer draw, in range, and consumes it |
| GilbertElliott.CorruptedDiffers | src/gilbert_elliott_channel.py:21-22 | a byte XOR-ed with a mask in 1..255 differs from the original |
| GilbertElliott.ByteStep | src/gilbert_elliott_channel.py:17-35 | one byte adds exactly one to `good_state_count + bad_state_count` |
| GilbertElliott.ByteStepCorrupts | src/gilbert_elliott_channel.py:20-24 | each byte leaves as sent or as `byte ^ m` with m in 1..255 |
| GilbertElliott.ByteStepGood | src/gilbert_elliott_channel.py:18-26 | helper for `ByteStep`: from the good state, count in good, error draw, mask draw only on error, transition draw against `good_to_bad` |
| GilbertElliott.ByteStepBad | src/gilbert_elliott_channel.py:27-35 | helper for `ByteStep`: from the bad state, the same against `bad_error_prob` and `bad_to_good` |
| GilbertElliott.BitStep | src/gilbert_elliott_channel.py:41-57 | each bit leaves as sent or as `1 - bit`, and adds exactly one to the counters |
| GilbertElliott.Run | src/gilbert_elliott_channel.py:15-36 | `transmit` returns as many bytes as it receives, and the counters grow by exactly the input length |
| GilbertElliott.RunBits | src/gilbert_elliott_channel.py:38-58 | `transmit_bits` returns as many bits as it receives, and the counters grow by exactly the input length |
| GilbertElliott.RunCorrupts | src/gilbert_elliott_channel.py:17-36 | every output byte equals its input byte, or is a corruption of it and then differs from it |
| GilbertElliott.RunBitsFlips | src/gilbert_elliott_channel.py:41-58 | every output bit is the input bit or its inverse |
| GilbertElliott.RunNoErrors | src/gilbert_elliott_channel.py:20-29 | with both error probabilities 0, `transmit` returns its input, because no draw in [0, 1) is below 0 |
| GilbertElliott.RunBitsNoErrors | src/gilbert_elliott_channel.py:44-52 | with both error probabilities 0, `transmit_bits` returns its input |
| GilbertElliott.RunStaysGood | src/gilbert_elliott_channel.py:25-26 | with `good_to_bad == 0`, a channel in the good state stays good for the whole call and never counts a bad unit |
| GilbertElliott.RunBitsStaysGood | src/gilbert_elliott_channel.py:48-49 | the same for `transmit_bits` |
| GilbertElliott.RunGoodPassthrough | src/gilbert_elliott_channel.py:18-26 | a channel that starts good with `good_to_bad == 0` and `good_error_prob == 0` returns its input and stays good, whatever the bad-state probabilities are |
| GilbertElliott.RunBitsGoodPassthrough | src/gilbert_elliott_channel.py:41-49 | the same for `transmit_bits` |
| GilbertElliott.GilbertElliottChannel.constructor | src/gilbert_elliott_channel.py:5-13 | a new channel keeps its four probabilities, starts good, with both counters 0 |
| GilbertElliott.GilbertElliottChannel.TransmitByte | src/gilbert_elliott_channel.py:18-35 | one pass of the loop body: the output byte and the new state, counters and draw cursor are `ByteStep` of the old ones |
| GilbertElliott.GilbertElliottChannel.Transmit | src/gilbert_elliott_channel.py:15-36 | the loop returns `Run` of the input and leaves `Run`'s state; same length, counters grow by the input length |
| GilbertElliott.GilbertElliottChannel.TransmitBit | src/gilbert_elliott_channel.py:42-57 | one pass of the bit loop body is `BitStep` |
| GilbertElliott.GilbertElliottChannel.TransmitBits | src/gilbert_elliott_channel.py:38-58 | the bit loop returns `RunBits` of the input; same length, counters grow by the input length |
| GilbertElliott.GilbertElliottChannel.Statistics | src/gilbert_elliott_channel.py:60-64 | (0, 0) before any unit; otherwise two percentages in [0, 100] that sum to 100, the first being 100·good/total |
| Pipeline.Packets | src/pipeline.py:87 | no packets for empty data; every packet has 1..64 bytes and all but the last exactly 64 |
| Pipeline.PacketsConcat | src/pipeline.py:87 | the packets concatenate to the pixel data |
| Pipeline.PacketsCount | src/pipeline.py:87 | there are `ceil(len(pixel_data) / 64)` packets |
| Pipeline.Judge | src/pipeline.py:117-161 | a direct success delivers the received detection codeword minus its trailer; a corrected payload carries the frame's checksum; any accepted payload is one trailer shorter than what arrived |
| Pipeline.JudgeDirect | src/pipeline.py:117-118 | direct success with payload p happens exactly when the channel delivered `encode(p)` |
| Pipeline.JudgeCorrected | src/pipeline.py:125-150 | correction success with payload f happens exactly when the direct decode failed, the RS decode of received-plus-parity is not `None` and is `encode(f)`, and `calculate_checksum(f)` equals the frame's checksum |
| Pipeline.JudgeClean | src/pipeline.py:109-118 | an undisturbed transmission is accepted directly with the packet itself |
| Pipeline.JudgedAccepts | src/pipeline.py:117-152 | whatever the receiver accepts arrived as an exact detection codeword (direct), or failed the direct decode and carries the checksum of the packet that was sent (corrected) |
| Pipeline.JudgedIntact | src/pipeline.py:109-118 | a codeword that arrived intact is accepted directly with the packet itself |
| Pipeline.Slot | src/pipeline.py:150-161 | a success on attempt `retries` counts in slot `retries`, or in `retries + 1` exactly when it needed correction |
| Pipeline.Histogram | src/pipeline.py:90-161 | `retransmission_counts` has 12 slots and slot 0 stays 0; each received packet adds one to its `Slot` |
| Pipeline.LostCount | src/pipeline.py:167 | `errors_detected` never exceeds the number of packets |
| Pipeline.HistogramAccounts | src/pipeline.py:90-167 | the histogram entries plus `errors_detected` sum to the number of packets |
| Pipeline.HistogramFirstTry | src/pipeline.py:161 | if every packet arrives directly on attempt 1, only slot 1 is non-zero and it counts every packet |
| Pipeline.ReceivedLength | src/pipeline.py:152-166 | the appended bytes total the pixel data's length, plus `64 - len(last)` when the last packet is lost |
| Pipeline.DeliveredSnoc | src/pipeline.py:150-166 | a packet delivered within ten attempts, judged on what arrived, or replaced by 64 filler bytes, added at the end keeps every earlier packet so |
| Pipeline.ProgressStep | src/pipeline.py:150-167 | one packet's outcome keeps the histogram, lost count, output and per-packet record (attempt number, verdict, what arrived) consistent |
| Pipeline.CleanOutput | src/pipeline.py:83-160 | when every packet is appended as it was sent, the output is the input |
| Pipeline.CleanCounts | src/pipeline.py:90-161 | when every packet arrived intact on attempt 1, slot 1 counts every packet and every other slot is 0 |
| Pipeline.Pipeline.constructor | src/pipeline.py:77-80 | the pipeline holds the chosen channel, detection code, correction code and random source |
| Pipeline.Pipeline.AttemptTransfer | src/pipeline.py:109-133 | one attempt sends the detection encoding over the channel and, only when the direct decode of what arrived fails, the correction symbols after it; what arrived has the encoding's length |
| Pipeline.Pipeline.AttemptTransferNoiseless | src/pipeline.py:109-118 | on a noiseless channel an attempt delivers the encoding and sends no correction symbols |
| Pipeline.Pipeline.TriesSnoc | src/pipeline.py:104-105 | an attempt made from the condition the previous one left extends the record of attempts |
| Pipeline.Pipeline.LastTrialJudged | src/pipeline.py:117-161 | the verdict of the last recorded attempt is `Judge` of what arrived, against the frame's checksum |
| Pipeline.Pipeline.TrialPayload | src/pipeline.py:152-160 | a payload the receiver accepts is as long as the packet |
| Pipeline.Pipeline.TrialSentNoiseless | src/pipeline.py:109-113 | on a noiseless channel what arrives is the detection encoding |
| Pipeline.Pipeline.TrialIntact | src/pipeline.py:117-118 | an attempt whose encoding arrived intact is accepted directly |
| Pipeline.Pipeline.TrialNoiseless | src/pipeline.py:109-118 | on a noiseless channel an attempt delivers the packet directly |
| Pipeline.Pipeline.Attempt | src/pipeline.py:105-161 | what arrived and the new channel condition are `AttemptTransfer` of the old condition (a second transfer exactly when the direct decode failed), and the verdict is `Judge` of what arrived against the frame's checksum |
| Pipeline.Pipeline.RetryStep | src/pipeline.py:104-161 | one more attempt after rejected ones keeps the loop state: all attempts recorded, every earlier one rejected, a success counted once in its `Slot` and its payload appended |
| Pipeline.Pipeline.RetryLoop | src/pipeline.py:101-161 | 1 to 10 attempts, each made from the condition the previous one left; all but the last rejected; success exactly when the last is accepted, with its payload appended and its slot incremented; failure only after 10 attempts, with nothing changed; a noiseless channel succeeds directly on attempt 1 |
| Pipeline.Pipeline.Filler | src/pipeline.py:166 | the 64 filler bytes are the next 64 `randint(0, 255)` draws, in order, and they advance the generator a Gilbert-Elliott channel shares |
| Pipeline.Pipeline.TransmitPacket | src/pipeline.py:99-168 | `PacketRun` from the channel's old condition and the generator's old cursor to the new ones: 1 to 10 attempts, each made from the condition the previous one left, all but the last rejected. A received packet's outcome is the last verdict, the attempt number and what arrived; its payload (as long as the packet) is appended and its `Slot` incremented, `errors_detected` unchanged. A lost packet took 10 attempts; the next 64 `randint(0, 255)` draws are appended, the histogram is unchanged and `errors_detected` grows by one. A noiseless channel delivers the packet directly on attempt 1 |
| Pipeline.Pipeline.PacketStep | src/pipeline.py:94-168 | one packet, as `TransmitPacket` reports it, keeps the accounts of `run_image_transmission` |
| Pipeline.Pipeline.RunsSnoc | src/pipeline.py:94-168 | the next packet, run from the channel condition and generator cursor the previous one left, extends the chain of packets |
| Pipeline.Pipeline.RunsDelivered | src/pipeline.py:94-168 | the chain of packets delivers each one: a received packet was accepted within ten attempts on what the channel delivered for it, and a lost one is 64 bytes |
| Pipeline.Pipeline.RunningStep | src/pipeline.py:94-168 | one more packet keeps the accounts, extends the chain of packets, and over a binary symmetric channel keeps the generator 64 draws ahead per lost packet |
| Pipeline.Pipeline.BscDrawsAt | src/pipeline.py:164-167 | over a binary symmetric channel only the filler draws from `random`: before packet k the cursor has moved 64 places per earlier lost packet |
| Pipeline.Pipeline.BscFiller | src/pipeline.py:164-167 | over a binary symmetric channel the filler of a lost packet is the 64 draws starting 64 places per earlier lost packet after the initial cursor |
| Pipeline.Pipeline.RunImageTransmission | src/pipeline.py:82-168 | the output is the 54-byte header followed by one piece per packet. The histogram and lost count are those of the per-packet outcomes. The packets ran one after another (`Runs`): the first from the channel's and the generator's old state, each later one from where the previous left them, and the final channel condition and cursor are where the last left them. So each received piece is the payload accepted on an attempt in 1..10, judged on what the channel delivered for that packet, and each lost piece is the 64 `randint(0, 255)` draws after its 10 rejected attempts. Over a binary symmetric channel the generator moves 64 places per lost packet. On a noiseless channel the output equals the input, nothing is lost, and every packet counts in slot 1 |

## Left out

- Image loading and saving (`src/image_handler.py`) is I/O and is not part of this model. `RunImageTransmission` takes the loaded bytes as its parameter and returns the received bytes instead of writing an image.
- The interactive `select_channel`, `select_error_detection_code` and `select_error_correction_code` (src/pipeline.py:18-75) read user input. They are replaced by the components the `Pipeline` constructor receives. An unrecognised channel type, which leaves `Channel.channel` unset in the source, is not representable.
- All `print` calls and the summary output after the loop (src/pipeline.py:170-185) are output only and are not modelled.
- `komm.BinarySymmetricChannel` is a foreign library. It is modelled as flipping bit i when the i-th draw of its own injected generator falls below the crossover probability. Its distribution and internal generator are not modelled.
- Python's `random` module is an injected oracle of draws. Nothing about the distributions is modelled, only the ranges Python guarantees and the order of the draws.
- The `reedsolo` GF(256) Reed-Solomon code is not part of this model. `CorrectionCode` keeps only its length laws on a single block of at most 255 bytes, and no correction capacity is claimed. `Judge` and the pipeline therefore require packet plus checksum plus 30 parity bytes to fit one block, which holds for the 64-byte packets of this program.
- Pipeline.Judge: requires the received bytes to be at least the checksum width, and the combined Reed-Solomon input to fit one block. The channel always preserves length and packets have at most 64 bytes, so every call from the pipeline satisfies both.
- ErrorDetection.DetectionCode.Decode: requires `Decodable` (any input for Parity, at least Width bytes for the CRC codes), because the source's CRC decoders index the trailer and raise an exception on shorter input rather than returning `None`.
- Floating-point percentages in `get_channel_statistics` are computed over reals. Probabilities are reals, and the comparisons `random() < p` are exact.
- The numpy array conversions in `_bytes_to_bits`/`_bits_to_bytes` are modelled as sequences of 0/1 integers. The result of `_bits_to_bytes` is a `bytes` value built from integers below 256.
- `src/main.py` is entry-point wiring and is not part of this model.
