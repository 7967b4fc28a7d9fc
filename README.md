# GeigerRng generation 2 — a Dafny model

GeigerRng turns the pulses of a Geiger counter, read by a Raspberry Pi Pico W
through its ADC, into 4-bit random numbers. Core 1 polls the ADC and keeps a
free-running counter, the *roulette*. When a reading rises above the voltage
threshold, it pushes the pair `(roulette % 16, roulette)` onto a bounded queue
(`geiger_gen2.hpp`, `GeigerGen2::detect`). Core 0 runs a TCP server on lwIP:

- a connecting client is greeted with `ready\n`;
- each 3-byte command `req` is answered with one line
  `<value>:<roulette>:<remaining>\n`, where the value is taken from the queue
  (`16:0:…` when the queue is empty);
- `end`, or any other three bytes, closes the client.

Two host-side scripts post-process what a client collects:

- `test/conv4Bits.py` packs pairs of 4-bit values into bytes;
- `test/scatter.py` reads a file of 4-byte records.

The project has six modules:

- `Common` (`common.dfy`): the fixed-width integer newtypes (`uint8`, `uint16`,
  `uint32`, and `int8` for lwIP's `err_t`), `Option` and `Min`.
- `Entropy` (`entropy.dfy`): the sample queue and its operations as pure
  functions (`Sample`, `Push`, `Pop`). It also has the producer loop as a
  function over a finite prefix of ADC readings (`Poll`) and the class
  `GeigerGen2`. The class holds the static members that loop updates
  (`rndQueue`, `roulette`, `count`). Its methods `GetRnd`, `PushSample` and
  `Detect` are each proved equal to the corresponding function (`Pop`, `Push`,
  `Poll`) and keep the queue invariant `ValidQueue` as the class's `Valid()`.
  `GetAvailable` returns the queue length and changes nothing.
- `Protocol` (`protocol.dfy`): the classification of a 3-byte command
  (`CheckReq`), `std::to_string` (`Decimal`), the reply line (`Reply`), and a
  reader for that line, used to prove that a reply can be read back.
- `Network` (`network.dfy`): the lwIP callbacks.
  - The first half states each callback as a transition on the value `Conn`:
    the handles, the send buffer and the send lengths.
  - The second half is the class `Context`. Its two buffers are `array`s, and
    each callback is a method whose new state is proved to be that transition.
  - Whether `tcp_write` or `tcp_close` succeeds is a boolean oracle parameter.
    Inside the receive loop the oracle is indexed by stride number.
- `NibblePacker` (`nibble_packer.dfy`): the line loop of `conv4Bits.py`.
- `ScatterDecoder` (`scatter_decoder.dfy`): the read loop of `scatter.py`.

Behaviour the model follows from the code:

- Eviction happens when `size() > MAX_QUEUE_LEN`, so the queue holds up to
  10241 samples, one more than the constant 10240 suggests. The model uses
  the code's bound.
- `roulette` is an `unsigned int` and wraps modulo 2^32. `sentLen` is a
  `u16_t` and wraps modulo 2^16.
- The receive loop advances 3 bytes at a time and reads `bufferRecv` through
  its bounds-checked accessor.
  - A delivery that is not a multiple of 3 bytes is completed with bytes left
    in the buffer by an earlier delivery.
  - A stride that starts at offset 2046 throws inside a `noexcept` function,
    which terminates the program. This happens for a payload of 2047 or 2048
    bytes.
- Inside the receive loop, `err` is declared again, which hides the
  parameter. `serverRecvClbk` therefore returns the `err` that lwIP passed in,
  and drops what the individual commands produced.
- `serverErrClbk` closes the *listening* handle on any error other than
  `ERR_ABRT`. The client handle is left alone.
- A failed accept closes the previously stored client and returns `ERR_VAL`.
- A successful accept overwrites a stored client handle without closing it
  (`AcceptStep` sets the client to the new handle). Only one client is meant
  to be served at a time, but nothing in the code enforces that.
- Because `roulette` wraps, the counters in the queue are strictly increasing
  only until the counter wraps around. This is why `PollKeepsIncreasing`
  requires that the counter does not wrap during the readings.

## Model

| member | source | states |
|---|---|---|
| Entropy.Sample | geiger_gen2.hpp:140 | the pushed pair has value `roulette % 16`, within [MIN_RESULT, MAX_RESULT], and counter `roulette` |
| Entropy.Push | geiger_gen2.hpp:139-140 | the queue grows by one unless it already holds more than MAX_QUEUE_LEN; the new sample is last; the kept samples keep their order, and only the front one is lost |
| Entropy.Pop | geiger_gen2.hpp:102-111 | an empty queue gives the sentinel (16, 0) and stays unchanged; otherwise the front sample and the rest together make up the old queue |
| Entropy.PushKeepsValid | geiger_gen2.hpp:136-141 | a push keeps the queue within MAX_QUEUE_LEN + 1 entries, each a genuine sample (value = counter mod 16) |
| Entropy.EvictionOnlyAboveBound | geiger_gen2.hpp:139 | up to MAX_QUEUE_LEN samples a push only appends; above that it drops exactly the oldest sample |
| Entropy.PushKeepsIncreasing | geiger_gen2.hpp:140 | pushing a counter larger than all queued ones keeps the counters strictly increasing |
| Entropy.PopEmptyIdempotent | geiger_gen2.hpp:103-104 | popping an empty queue gives the sentinel, and doing it again changes nothing |
| Entropy.PopDistinguishesSentinel | geiger_gen2.hpp:102-111 | on a reachable queue the popped value is at most MAX_RESULT iff the queue was non-empty, and the rest is still reachable |
| Entropy.RunPreservesFifo | geiger_gen2.hpp:102-141 | for any interleaving of pushes and pops with no eviction, the real samples popped followed by the final queue equal the initial queue followed by all samples pushed: nothing is lost, duplicated or reordered |
| Entropy.NextRoulette | geiger_gen2.hpp:150 | `roulette++` is (roulette + 1) mod 2^32 |
| Entropy.DebounceEnd | geiger_gen2.hpp:143-146 | the debounce wait ends just after the first reading at or below the zero threshold; every reading it skips is above it; None means no such reading remains |
| Entropy.Poll | geiger_gen2.hpp:132-152 | the detection loop over a finite prefix of readings: a reading above vthreshold pushes a sample, waits as DebounceEnd says and counts the event, and every completed iteration advances roulette; its guarantees are PollKeepsValid and PollKeepsIncreasing, and Detect is proved equal to it |
| Entropy.PollKeepsValid | geiger_gen2.hpp:132-152 | for any sequence of readings, the detection loop keeps the queue bounded and made of genuine samples |
| Entropy.PollKeepsIncreasing | geiger_gen2.hpp:132-152 | as long as the counter does not wrap, samples are queued in strictly increasing counter order |
| Entropy.GeigerGen2.constructor | geiger_gen2.hpp:83-95 | starts with an empty queue, zero counters and the given thresholds, in a state where the queue invariant `Valid()` holds |
| Entropy.GeigerGen2.GetRnd | geiger_gen2.hpp:102-111 | returns and removes the front sample, or returns the sentinel and leaves the queue unchanged; keeps `Valid()` |
| Entropy.GeigerGen2.GetAvailable | geiger_gen2.hpp:113-115 | returns the queue length and changes nothing |
| Entropy.GeigerGen2.PushSample | geiger_gen2.hpp:138-141 | the locked section updates the queue exactly as Push and keeps `Valid()` |
| Entropy.GeigerGen2.Detect | geiger_gen2.hpp:133-152 | the nested polling loops leave queue, roulette and count exactly as the function Poll does, and keep `Valid()`; Poll's invariants are the lemmas PollKeepsValid and PollKeepsIncreasing |
| Protocol.CheckReq | geiger_gen2.hpp:292-299 | 0 iff the stride is `req`, 1 iff it is `end`, 2 iff it is neither |
| Protocol.Decimal | geiger_gen2.hpp:308-309 | `to_string` gives at least one decimal digit, with no leading zero except for 0 itself |
| Protocol.DecimalRoundTrip | geiger_gen2.hpp:308-309 | the digits of `to_string(n)` denote n |
| Protocol.DecimalLength | geiger_gen2.hpp:308-309 | a number below 10^k has at most k digits |
| Protocol.Reply | geiger_gen2.hpp:308-309 | the reply line has at least 6 bytes and ends in a newline |
| Protocol.ReplyRoundTrip | geiger_gen2.hpp:308-309 | a reply reads back as exactly the sample value, its counter and the queue length |
| Protocol.ReplyLength | geiger_gen2.hpp:308-311 | for a sample or the sentinel and fewer than 100000 queued samples, the value field has 1 or 2 digits and the line is at most 20 bytes, far below the 2048-byte send buffer |
| Network.ClientCloseStep | geiger_gen2.hpp:210-228 | clientClose as a transition; ClientCloseResult states that it always clears the client, changes nothing else, and returns ERR_OK iff there was no handle or tcp_close succeeded, ERR_ABRT otherwise |
| Network.ServerCloseStep | geiger_gen2.hpp:198-208 | serverClose as a transition: only the listening handle is cleared; ErrIgnoresAbort uses it |
| Network.SendDataStep | geiger_gen2.hpp:260-272 | serverSendData as a transition: sentLen is reset; a failed tcp_write then closes the client as ClientCloseStep; RequestReply and AcceptGreets state the outcome |
| Network.SentStep | geiger_gen2.hpp:252-258 | serverSentClbk as a transition; SentOnlyAddsLength states that only sentLen changes, by len mod 2^16 |
| Network.ErrStep | geiger_gen2.hpp:330-336 | serverErrClbk as a transition; ErrIgnoresAbort states that ERR_ABRT changes nothing and any other error clears only the listening handle |
| Network.ClientCloseResult | geiger_gen2.hpp:210-228 | clientClose always clears the client handle and changes nothing else; it returns ERR_OK iff there was no handle or tcp_close succeeded, and ERR_ABRT otherwise |
| Network.SentOnlyAddsLength | geiger_gen2.hpp:252-258 | serverSentClbk changes only sentLen, advancing it by len mod 2^16 |
| Network.ErrIgnoresAbort | geiger_gen2.hpp:330-336 | ERR_ABRT changes nothing; any other error closes the listening handle and nothing else |
| Network.Load | geiger_gen2.hpp:311-312 | loading a message keeps the send buffer at 2048 bytes and toSendLen within it |
| Network.LoadContents | geiger_gen2.hpp:311-312 | toSendLen is min(message size, 2048); that many message bytes lead the buffer; the buffer's tail and all other fields are unchanged |
| Network.ReqStep | geiger_gen2.hpp:304-315 | a `req` stride keeps the send buffer well formed |
| Network.RequestReply | geiger_gen2.hpp:304-315 | a `req` stride pops the front sample, if any (an empty queue is left as it is and answered with the sentinel), and loads its whole reply, reporting the length after the pop; it resets sentLen, keeps the listening handle, and keeps the client iff tcp_write succeeds |
| Network.StrideStep | geiger_gen2.hpp:300-323 | every stride keeps the send buffer well formed |
| Network.CloseStrideSendsNothing | geiger_gen2.hpp:316-323 | an `end` or unrecognised stride only clears the client handle and leaves the queue untouched |
| Network.RecvLoop | geiger_gen2.hpp:286-324 | the stride loop keeps the connection state well formed, whether it completes or reads out of range |
| Network.RecvLoopPops | geiger_gen2.hpp:286-324 | the loop removes exactly min(queue length, number of `req` strides) samples from the front of the queue |
| Network.RecvLoopKeepsHandles | geiger_gen2.hpp:286-324 | the loop never changes the listening handle, and leaves the client handle as it was or cleared |
| Network.RecvLoopOutOfRange | geiger_gen2.hpp:286-292 | with a 2048-byte buffer, the loop reads out of range iff a stride starts at offset 2046, that is for 2047 or 2048 received bytes |
| Network.StaleByteCompletesRequest | geiger_gen2.hpp:280-294 | a 2-byte delivery `re` is answered as a full `req` when the byte left at offset 2 by an earlier delivery is `q` |
| Network.AcceptStep | geiger_gen2.hpp:338-358 | accept keeps the send buffer well formed |
| Network.AcceptGreets | geiger_gen2.hpp:346-358 | a successful accept loads exactly `ready\n` (6 bytes) and resets sentLen; when tcp_write succeeds it keeps the new client and returns ERR_OK; when tcp_write fails it clears the client and returns ERR_OK iff the following tcp_close succeeds (ERR_ABRT otherwise) |
| Network.AcceptFailure | geiger_gen2.hpp:341-345 | an accept with an error or a null handle closes the stored client and returns ERR_VAL, changing nothing else |
| Network.Context.constructor | geiger_gen2.hpp:161-178 | the static Context starts with null handles, zero lengths and zeroed 2048-byte buffers |
| Network.Context.ClientClose | geiger_gen2.hpp:210-228 | the new state and result are ClientCloseStep's |
| Network.Context.ServerClose | geiger_gen2.hpp:198-208 | clears the listening handle and returns ERR_OK |
| Network.Context.ServerSentClbk | geiger_gen2.hpp:252-258 | the new state is SentStep's and the result is ERR_OK |
| Network.Context.ServerSendData | geiger_gen2.hpp:260-272 | the new state and result are SendDataStep's: sentLen reset, then the client closed if tcp_write fails |
| Network.Context.LoadSend | geiger_gen2.hpp:311-312 | the copy loop leaves bufferSend and toSendLen exactly as Load does |
| Network.Context.CopyReceived | geiger_gen2.hpp:280 | the payload overwrites the front of bufferRecv; the rest of the buffer keeps its old bytes; recvLen is the payload length |
| Network.Context.HandleStride | geiger_gen2.hpp:300-323 | one stride changes the Context and the sample queue exactly as StrideStep |
| Network.Context.ReceiveStrides | geiger_gen2.hpp:286-324 | the while loop over a 16-bit index changes Context and queue exactly as RecvLoop, and reports whether it completed |
| Network.Context.ServerRecvClbk | geiger_gen2.hpp:274-328 | a null pbuf closes the client and returns that close's result; otherwise the payload is copied, the strides run as RecvLoop, and the callback returns the incoming err, or terminates on an out-of-range read |
| Network.Context.ServerErrClbk | geiger_gen2.hpp:330-336 | the new state is ErrStep's |
| Network.Context.ServerAccept | geiger_gen2.hpp:338-358 | the new state and result are AcceptStep's |
| NibblePacker.PackByte | test/conv4Bits.py:36-37 | `c_ubyte` of the bitwise or of highBits and binValue: the low 8 bits of the or; NibbleRoundTrip and PackByteTruncates state that for a nibble as second value it is (16·hi + lo) mod 256, with the nibbles recoverable when both are in [0, 15] |
| NibblePacker.Packed | test/conv4Bits.py:27-38 | one byte per complete pair, the k-th built from values 2k and 2k+1; an unpaired last value produces nothing |
| NibblePacker.Pack | test/conv4Bits.py:27-38 | the line loop writes exactly the bytes Packed gives |
| NibblePacker.PendingNeverInvalid | test/conv4Bits.py:33-34 | a shifted value is never the INVALID marker, so pairing cannot lose step |
| NibblePacker.NibbleRoundTrip | test/conv4Bits.py:34-37 | for two values in [0, 15] the byte is 16·hi + lo; its high nibble gives back hi and its low nibble gives back lo |
| NibblePacker.PackByteTruncates | test/conv4Bits.py:36-37 | with a second value in [0, 15], the byte is (16·hi + lo) mod 256 for any integer first value, negative ones included |
| NibblePacker.PackRoundTrip | test/conv4Bits.py:27-38 | values in [0, 15] are recovered in order from the packed bytes, except an unpaired last value |
| ScatterDecoder.LittleEndian16 | test/scatter.py:36-37 | a little-endian 16-bit value: below 65536, low byte b0, high byte b1 |
| ScatterDecoder.Records | test/scatter.py:31-37 | one point per complete 4-byte record; x is bytes 0-1 and y is bytes 2-3, both little-endian |
| ScatterDecoder.Decode | test/scatter.py:31-37 | the read loop builds exactly the xs and ys of Records and stops at the first short read |
| ScatterDecoder.DecodeEncode | test/scatter.py:31-37 | decoding the file written for any 16-bit points gives those points back |
| ScatterDecoder.EncodeDecode | test/scatter.py:31-37 | re-encoding the decoded points gives back the file up to its last complete record |

## Left out

- The mutex and the two cores: each push and each pop is one atomic step. `GetAvailable` and the `empty()` test in `getRnd` read the queue without the lock; that race is not modelled.
- The ADC, the sleeps and `multicore_launch_core1`: the ADC is a finite sequence of readings; the endless loop is modelled over a finite prefix of it.
- `GeigerGen2::init`, `getInstance` (the singleton) and `abort`: hardware set-up, allocation and logging, with no state the model needs.
- `count`: a `long`, which is 32 bits on the RP2040, so `count++` overflows (undefined behaviour) after 2^31 - 1 detections. It is modelled as an unbounded integer because nothing in the code ever reads `count`.
- `genCount`, `lastCount` and `lastRnd`: declared but never used.
- lwIP itself: handles are opaque identities. `tcp_write` and `tcp_close` are oracle parameters, including when `tcp_write` is given a handle that an earlier stride already closed. `tcp_arg`, `tcp_sent`, `tcp_recv`, `tcp_err`, `tcp_output`, `tcp_recved`, `pbuf_free` and `cyw43_arch_lwip_check` have no effect here.
- The logging wrappers `serverResult` and `clientResult`: they are modelled through `serverClose` and `clientClose`, which they call. `result` is never called.
- `service`, the `GeigerGen2NetworkLayer` constructor and `geiger_gen2.cpp`: Wi-Fi set-up, binding, listening and the polling loop; geiger_gen2.cpp is not part of this model.
- Network.Context.ServerRecvClbk: requires a payload of at most 2048 bytes. `pbuf_copy_partial` into the 2048-byte buffer with a larger length would write past it, which is undefined behaviour with nothing to model.
- `test/test.py`, and the plotting, file opening and argument checks of the two scripts.
- NibblePacker.Pack: takes the already parsed integers; a line that `int()` rejects raises in Python and is not modelled.
- ScatterDecoder.Decode: the script's `iter(..., '')` sentinel never matches the `bytes` returned in binary mode, so only the `len(binValues) != 4` test stops the loop, and the model keeps only that test.
