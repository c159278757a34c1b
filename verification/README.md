# Verified model of the smart-home remote simulator

The repository joins a C remote control (IR encoders, connection manager, universal sender, latency
statistics) with a browser TV simulator (Python server, scheduler, protocol classifier, and a first-person
walk mode in JavaScript). This project models the algorithmic parts of all three in Dafny and proves what
they keep over every input and every run.

| module | what it models |
|---|---|
| `IrWave`, `IrEmitter` | the LED waveforms of RC5, RC6 and NEC, the trace hook that merges them, and `ir_send` |
| `IrHalves`, `IrRc5`, `IrRc6`, `IrNec` | the quantiser and the three decoders of the waveform tests, and the round trips |
| `IrCarries` | which bits of a code each waveform carries |
| `ProtocolClassifier` | naming a protocol from jittered pulse lengths |
| `RateLimiter`, `ChannelEntry` | the server's per-IP limiter and its timed channel entry |
| `Scheduler` | time-of-day rules, fired exactly once a minute |
| `Latency` | running aggregates beside a sample buffer that readers sort through an alias |
| `Connection` | the connection manager over a transmitter whose answers are arbitrary |
| `UniversalTv` | the two-pass universal sender and the wrapping code scan |
| `Geometry`, `Punch`, `Circles`, `PushOuts`, `Collision` | boxes cut by holes, circle-against-box sliding and pushing, when pushing ends free, the height field |
| `Motion` | jumping, falling and landing frame by frame |
| `Bits`, `Arithmetic`, `Options` | shared helpers |

Conventions. Code that updates state in the source is a class or a method with a loop, proved against a
function; the lemmas are about those functions and about runs of them. Words are naturals with shifts, masks
and bitwise-or defined by halving; 32- and 64-bit wrap-around is written out where a counter could reach it.
Times, positions and IR jitter are reals. Wall-clock time, the transmitter's answers, allocation success and
whether an adapter raises are inputs, so the theorems hold for all of them. `Math.hypot` is a function
parameter; where its value matters it is required to be the Euclidean length, and the no-tunnelling lemma
takes that length as an argument. The door boxes seen by one move are a list that does not change during it.

Results that sharpen or correct what the sources say:

- The comment in `src/ir_asm.h` lines 57-61 gives RC6 bits the opposite polarity of the code; the model follows
  `src/ir_asm_c.c`. The header comment of `ir_send_rc6` announces an 8-bit command; the code carries 7 bits, and
  `IrCarries.Rc6Carries` says exactly which.
- The limiter admits at most 2 * limit - 1 requests in any closed interval as long as its window, and that bound
  is reached for every limit.
- Channel up and down are inverse exactly on the channels other than 0; from 0 channel down gives 998.
- A receiver that misses the leading space of an RC5 frame still sees RC5, under any jitter of up to 40%, except
  for the word 0x3555, which it misses even with exact timings.
- `pushOut` can leave the player inside a blocker or on the wrong side of one. Between wall planes 0.2 thick, with
  nothing else in reach, a standing player who touches one is freed by one push when they are at least 0.57 apart, is
  pushed back and forth for ever when they are more than 0.19 and less than 0.57 apart, and is pushed through the
  second plane when they are less than 0.19 apart. `PushOuts.FreeBetweenWalls` gives the exact condition for two facing
  walls of any thickness and length.
- In a fall the player never gets below -1.4, so the rescue of players below -2 is dead code.

## Model

| member | source | states |
|---|---|---|
| `IrWave.RequantiseRecovers` | tests/c/test_ir_protocol.c:29-68 | For any delays that fit the buffer once merged and whose remainders stay below the rounding threshold, merging equal levels and dividing with rounding gives back exactly the half-bit levels that were meant. |
| `IrWave.FitsByRuns` | tests/c/test_ir_protocol.c:29-41 | A capture overflows exactly when the delays have more runs of equal level than the buffer has room for. |
| `IrWave.RecordAddsWidths` | tests/c/test_ir_protocol.c:29-68 | One traced delay adds exactly its own half-bits to the requantised capture, whether it was merged into the last segment or not. |
| `IrWave.CaptureConservesTime` | tests/c/test_ir_protocol.c:277-297 | A capture that fits lasts exactly as long as the delays it was made of. |
| `IrWave.FrameAirtime` | src/ir_protocol.c:22-189 | An RC5 frame lasts 24892 us and an RC6 frame 22203 us for every word; a NEC frame lasts 49900 us plus 1130 us per set bit of the code. |
| `IrWave.QuotIsDiv` | tests/c/test_ir_protocol.c:60-60 | The quotient used in the quantiser's specification is the source's integer division. |
| `IrRc5.Rc5RoundTrip` | tests/c/test_ir_protocol.c:97-125 | For every word: the captured RC5 waveform has 28 half-bits, a transition inside every bit, and decodes to the word's low 14 bits. |
| `IrRc5.DecodeRc5` | tests/c/test_ir_protocol.c:113-123 | The decoding loop accepts exactly when all 14 mid-bit transitions are there and assembles the pairs most significant first; the 16-bit accumulator never truncates. |
| `IrRc5.Rc5AcceptsOnlyFrames` | tests/c/test_ir_protocol.c:113-123 | The decoder accepts nothing but what the encoder emits: accepted half-bits are those of the captured frame of the word it reads. |
| `IrRc6.Rc6RoundTrip` | tests/c/test_ir_protocol.c:127-175 | For every word: the captured RC6 waveform has 50 half-bits, passes every check of the decoder (leader, start bit, double-width trailer), and decodes to the word exactly when the word is 20 bits wide with its start bit set. |
| `IrRc6.DecodeRc6` | tests/c/test_ir_protocol.c:148-172 | The decoding loop accepts exactly the frames with a sound opening and sound bits, and its word is the one read position by position. |
| `IrRc6.Rc6AcceptsOnlyFrames` | tests/c/test_ir_protocol.c:148-172 | The same for RC6: half-bits that pass every check are those of the captured frame of the word read. |
| `IrRc6.Rc6Captured` | src/ir_protocol.c:64-90 | The half-bits of every captured RC6 frame: six marks, two spaces, the start bit, and each bit held for its width although the leader is 3 us longer than whole half-bits. |
| `IrNec.NecCaptured` | src/ir_protocol.c:159-209 | A NEC frame is captured unmerged in 67 segments, and bit i of each half-word is the i-th mark and space after the leader. |
| `IrNec.NecRoundTrip` | tests/c/test_ir_protocol.c:177-215 | For every code: the captured NEC frame passes every check and yields the code's two halves; the halves rebuild the code exactly when it fits 32 bits. |
| `IrNec.DecodeNec` | tests/c/test_ir_protocol.c:195-214 | The decoding loop accepts exactly the sound frames and assembles address and command least significant bit first. |
| `IrNec.NecAcceptsOnlyFrames` | tests/c/test_ir_protocol.c:195-214 | The same for NEC: segments that pass every check are the captured frame of the code made of the two halves read. |
| `IrHalves.ToHalves` | tests/c/test_ir_protocol.c:55-68 | Returns the half-bit levels, or -1 exactly when they do not fit. |
| `IrCarries.Rc5Layout` | src/ir_protocol.c:97-118 | Every bit of the RC5 word: start bits 13 and 12, toggle from bit 31, address from bits 15-11, command from bits 5-0, nothing above bit 13. |
| `IrCarries.Rc5WordIs` | src/ir_protocol.c:97-118 | The RC5 word as a number: 0x3000, the toggle at 0x800, five address bits, six command bits. |
| `IrCarries.Rc6Layout` | src/ir_protocol.c:125-147 | Every bit of the RC6 word: start bit 19, mode from bits 18-16, toggle from bit 31, address from bits 15-8, a 7-bit command, nothing above bit 19. |
| `IrCarries.Rc6WordIs` | src/ir_protocol.c:125-147 | The RC6 word as a number: 0x80000, three mode bits, the toggle at 0x8000, eight address bits, seven command bits. |
| `IrCarries.Rc5Carries` | src/ir_protocol.c:22-118 | Two codes give the same captured RC5 waveform if and only if they agree on bits 31, 15-11 and 5-0. |
| `IrCarries.Rc6Carries` | src/ir_protocol.c:64-147 | Two codes give the same captured RC6 waveform if and only if they agree on bits 31, 18-16, 15-8 and 6-0. |
| `IrCarries.NecCarries` | src/ir_protocol.c:159-209 | Two 32-bit codes give the same captured NEC waveform if and only if they are equal. |
| `IrEmitter.Recorder.TraceHook` | tests/c/test_ir_protocol.c:29-41 | In-place buffer update: extends the last segment on an unchanged level, else stores a new one, else flags overflow. |
| `IrEmitter.Recorder.Clear` | tests/c/test_ir_protocol.c:43-48 | The capture starts from an empty buffer without overflow. |
| `IrEmitter.Emitter.DelayUs` | src/ir_asm_c.c:34-40 | A delay holds the current level; it reaches the hook exactly when one is installed. |
| `IrEmitter.Emitter.SendRc5Bit` | src/ir_asm_c.c:54-68 | Bit 1 is a space then a mark, bit 0 the reverse, 889 us each. |
| `IrEmitter.Emitter.SendRc6Bit` | src/ir_asm_c.c:70-85 | Bit 1 is a mark then a space, bit 0 the reverse, 444 us each. |
| `IrEmitter.Emitter.SendRc6TrailerBit` | src/ir_protocol.c:38-50 | The toggle bit, each half twice as long. |
| `IrEmitter.Emitter.SendNecBit` | src/ir_protocol.c:199-209 | A 560 us mark, then a space of 1690 us for 1 and 560 us for 0. |
| `IrEmitter.Emitter.SendRc5` | src/ir_protocol.c:22-33 | The loop emits bits 13 down to 0 and leaves the LED off. |
| `IrEmitter.Emitter.SendRc6` | src/ir_protocol.c:64-90 | Leader, a start bit that is always 1, then bits 18 down to 0 with bit 15 double width. |
| `IrEmitter.Emitter.SendNec` | src/ir_protocol.c:159-189 | Leader, sixteen address bits, sixteen command bits, stop mark. |
| `IrEmitter.Emitter.Send` | src/ir_codes.c:371-469 | At least one transmission, gaps only between transmissions; nothing is emitted and -1 returned for a zero code, an unsupported protocol or an uninitialised transmitter. |
| `IrEmitter.SendIsFrames` | src/ir_codes.c:404-455 | A send is max(r, 1) copies of its protocol's frame with exactly one low gap between neighbours, 108 ms for RC6 and 114 ms otherwise, and nothing else. |
| `IrEmitter.FrameIs` | src/ir_codes.c:408-440 | That frame: NEC of the code itself, RC5 (also for Phillips) and RC6 of the word laid out for them, written as numbers. |
| `IrEmitter.SendAirtime` | src/ir_codes.c:404-455 | With repeat count r a send lasts max(r, 1) frames and one gap fewer, the gap being 108 ms for RC6 and 114 ms otherwise. |
| `IrEmitter.CapturedAirtime` | tests/c/test_ir_protocol.c:277-297 | The captured total of a send equals its airtime whenever its runs of equal level fit the buffer. |
| `IrEmitter.Rc5Test` | tests/c/test_ir_protocol.c:97-125 | Capture, send, requantise and decode run together on the mutable emitter and buffer: every check passes and the 14 bits come back, for every word. |
| `IrEmitter.Rc6Test` | tests/c/test_ir_protocol.c:127-175 | The same for RC6: every check passes for every word; the word returns exactly when bits 19 and up equal 1. |
| `IrEmitter.NecTest` | tests/c/test_ir_protocol.c:177-215 | The same for NEC: address and command are the code's halves, for every code. |
| `IrEmitter.SendRc5Test` | tests/c/test_ir_protocol.c:241-264 | `ir_send` of any RC5 or Phillips code, captured, requantised and decoded: every check passes and the word laid out for the code is read, bit by bit and as a number. |
| `IrEmitter.SendRc6Test` | tests/c/test_ir_protocol.c:241-264 | The same for every RC6 code. |
| `IrEmitter.SendNecTest` | tests/c/test_ir_protocol.c:241-264 | The same for every NEC code: the decoder reads its upper and lower sixteen bits. |
| `ProtocolClassifier.NecRecognised` | test_simulator/protocol_classifier.py:43-56 | Every NEC code's capture, each duration off by up to 40%, is named NEC. |
| `ProtocolClassifier.Rc6Recognised` | test_simulator/protocol_classifier.py:43-60 | Every RC6 word's capture, each duration off by up to 40%, is named RC6. |
| `ProtocolClassifier.Rc5Recognised` | test_simulator/protocol_classifier.py:62-69 | Every RC5 word with both start bits set, each duration off by up to 40%, is named RC5. |
| `ProtocolClassifier.EveryCodeRecognised` | src/ir_protocol.c:97-118 | Whatever 32-bit code is sent as RC5, its jittered capture is named RC5. |
| `ProtocolClassifier.NamedExactly` | test_simulator/protocol_classifier.py:43-69 | Which timings get which name, in microseconds: NEC, RC6 and RC5 each if and only if their openings and counts are in range, and nothing else a name. |
| `ProtocolClassifier.Rc5Captured` | src/ir_protocol.c:22-33 | The capture has one- and two-half-bit segments only, the first three single, and 28 minus the number of bit transitions of them. |
| `ProtocolClassifier.EnoughSingles` | test_simulator/protocol_classifier.py:65-66 | At least four single-width segments lie among the first twenty. |
| `ProtocolClassifier.WithoutLeadingSpace` | test_simulator/protocol_classifier.py:62-69 | Without the leading space a word is named RC5 under every jitter of up to 40% if and only if it is not 0x3555, which is not named even with exact timings. |
| `RateLimiter.Limiter.Exceeded` | test_simulator/web_server.py:96-122 | One request: the client's window grows or restarts, other clients keep theirs unless it expired and the store was over its cap, and the request is refused when the count exceeds the limit; a limit of 0 or less refuses nothing and touches nothing. |
| `RateLimiter.Serve` | test_simulator/web_server.py:96-122 | Over any run of requests the store and every decision are those of the run's specification. |
| `RateLimiter.StoreAgrees` | test_simulator/web_server.py:111-119 | At any time the shared store holds a client's own window, or has dropped it because it expired. |
| `RateLimiter.DecisionsAreIsolated` | test_simulator/web_server.py:109-122 | Every decision equals that of a store that never evicts and serves this client alone. |
| `RateLimiter.StoreIsBounded` | test_simulator/web_server.py:111-119 | The store never holds more than the larger of its cap and the number of live windows, plus one. |
| `RateLimiter.IntervalBound` | test_simulator/web_server.py:115-122 | Any closed interval as long as the window admits at most 2 * limit - 1 requests of one client. |
| `RateLimiter.BoundIsReached` | test_simulator/web_server.py:115-122 | For every limit and window an ordered run of the shared limiter reaches 2 * limit - 1, so the bound is tight. |
| `RateLimiter.WellBehavedIsNeverRefused` | test_simulator/web_server.py:115-122 | A client with at most `limit` requests in every such interval is never refused. |
| `RateLimiter.AdmittedByWindow` | test_simulator/web_server.py:115-122 | What the current window says about an interval, by where the window opened: the invariant behind the bound. |
| `ChannelEntry.TvState.HandleButtonPress` | test_simulator/web_server.py:423-556 | Power, channel up and down, and digits on the mutable state, all but power ignored while off. |
| `ChannelEntry.HandleAll` | test_simulator/web_server.py:423-556 | Any run of presses leaves the state its specification gives. |
| `ChannelEntry.InputIsBurstTail` | test_simulator/web_server.py:531-556 | Over any run the pending input is exactly the last k mod 3 digits of the current burst of k accepted digits, timed by the last. |
| `ChannelEntry.BurstIsMaximal` | test_simulator/web_server.py:538-540 | The burst is the longest tail of presses with gaps of at most two seconds. |
| `ChannelEntry.EveryThirdDigitTunes` | test_simulator/web_server.py:541-556 | Every third digit of a burst tunes to 100a + 10b + c; no other digit changes the channel. |
| `ChannelEntry.ThreeDigits` | test_simulator/web_server.py:541-546 | Three typed digits parse to their decimal value, so the ValueError and out-of-range branches are dead. |
| `ChannelEntry.ChannelInRange` | test_simulator/web_server.py:448-462 | The channel never leaves 0..999. |
| `ChannelEntry.ChannelPresses` | test_simulator/web_server.py:448-462 | After any run that leaves the TV on, channel up gives c mod 999 + 1 and channel down (c - 2) mod 999 + 1 and nothing else changes; after one that leaves it off nothing does. |
| `ChannelEntry.OffIgnores` | test_simulator/web_server.py:423-462 | While the TV is off every press but power is ignored, and power only switches. |
| `ChannelEntry.UpAndDownAreInverse` | test_simulator/web_server.py:448-462 | Up and down undo each other if and only if the channel is not 0. |
| `ChannelEntry.OppositePresses` | test_simulator/web_server.py:448-462 | As presses after any run, up and down restore the channel if and only if it was not 0. |
| `ChannelEntry.ZeroIsReached` | test_simulator/web_server.py:448-462 | Power and three zeros tune to channel 0, the one channel where up and down do not undo each other. |
| `ChannelEntry.CycleOf999` | test_simulator/web_server.py:448-462 | On 1..999 repeated up or down returns to its start exactly after a multiple of 999 presses. |
| `ChannelEntry.RepeatedPresses` | test_simulator/web_server.py:448-462 | n presses of channel up from a channel in 1..999 go n channels up around the 999, and n of channel down go n down. |
| `Scheduler.Memory.RunDueRules` | test_simulator/scheduler.py:135-179 | One tick on the mutable memory: the attempts, the remembered keys after pruning, and the reported presets, with attempts that raise remembered but not reported. |
| `Scheduler.Memory.Forget` | test_simulator/scheduler.py:176-178 | Exactly the entries of the current minute survive. |
| `Scheduler.RunScheduler` | test_simulator/scheduler.py:125-132 | The loop over ticks: what each attempts and reports, whichever of its attempts raise, and what is remembered are those of the run. |
| `Scheduler.CheckInterval` | test_simulator/scheduler.py:101-105 | A setting between 1 and 30 seconds is used as it is and any other is replaced by 30 seconds. |
| `Scheduler.TickAttempts` | test_simulator/scheduler.py:147-158 | A tick attempts each due preset the minute has not seen exactly once, and remembers exactly those seen or due. |
| `Scheduler.AttemptsByFirstRule` | test_simulator/scheduler.py:147-171 | Every attempt comes from the first due rule naming its preset and goes to the rule's, the preset's or the default target. |
| `Scheduler.AttemptsGoWhereAsked` | test_simulator/scheduler.py:159-167 | Every attempt is of the first rule that asks for its preset and goes to the rule's target, else to that of the first preset of the name, else to the default. |
| `Scheduler.ReportedAre` | test_simulator/scheduler.py:169-174 | A tick reports exactly its attempts that did not raise, in order. |
| `Scheduler.ExactlyOnce` | test_simulator/scheduler.py:125-179 | For increasing ticks at most 60 s apart, every minute from the first tick's to the last tick's attempts each preset that has a due rule exactly once and no other. |
| `Scheduler.AttemptedWhenAsked` | test_simulator/scheduler.py:78-92 | In every minute of a run exactly the presets for which some rule names this hour, minute and weekday (or no weekday) are attempted, each once. |
| `Scheduler.NoTickNoAttempt` | test_simulator/scheduler.py:125-132 | A minute without a tick attempts nothing, so the bound on the gaps is needed. |
| `Latency.LatencySystem.Init` | src/latency.c:40-59 | The first initialisation starts an empty history; later ones change nothing; a failed allocation leaves the system uninitialised. |
| `Latency.LatencySystem.Record` | src/latency.c:124-153 | The record joins the history; aggregates and buffer stay those of the history. |
| `Latency.LatencySystem.Aggregate` | src/latency.c:129-140 | Count, sum, minimum, maximum and average after one more record equal a fold over all records; neither counter wraps below 2^32 records. |
| `Latency.LatencySystem.Store` | src/latency.c:143-150 | The buffer stays, as a multiset, the first records it has room for. |
| `Latency.LatencySystem.CalculatePercentiles` | src/latency.c:169-191 | Sorts the shared buffer in place, keeps its contents as a multiset, and sets each percentile to the latency at its rank. |
| `Latency.LatencySystem.GetStats` | src/latency.c:196-205 | The copy shares the live buffer, which ends up sorted; the history and everything later calls can observe do not change, the answer is a function of the history, and in it min <= p50 <= p95 <= p99 <= max and min <= avg <= max. |
| `Latency.LatencySystem.GetStatsForOperation` | src/latency.c:210-243 | The number, sum, least, greatest and average of the kept latencies of the operation asked for, whatever order earlier readers left the buffer in. |
| `Latency.LatencySystem.Reset` | src/latency.c:248-262 | The history restarts empty; buffer and capacity stay. |
| `Latency.Perform` | src/latency.c:124-262 | Any interleaving of records, readers and resets, with fewer than 2^32 records between resets, leaves exactly the state of its records: readers leave no trace. |
| `Latency.SummaryDescribes` | src/latency.c:129-138 | The aggregates are the number, the sum, the least and the greatest of all recorded latencies, or of those of one operation; with none, 0, 0, UINT32_MAX and 0. |
| `Latency.OthersAreIgnored` | src/latency.c:223-236 | A record of another operation, or of none, leaves an operation's answer as it is. |
| `Latency.AverageIs` | src/latency.c:140-140 | The average is the sum divided by the count, rounded down, and 0 without records. |
| `Latency.SummaryIgnoresOrder` | src/latency.c:223-236 | The fold over samples does not depend on their order. |
| `Latency.RankIgnoresOrder` | src/latency.c:175-190 | However a buffer was sorted, it shows the same latency at every rank. |
| `Latency.PercentilesAscend` | src/latency.c:178-190 | The percentiles of the kept samples ascend, lie between the minimum and maximum of the whole history, and each is the latency of a recorded sample. |
| `Latency.RanksMean` | src/latency.c:178-190 | Each percentile's rank is that share of the number of samples, rounded down. |
| `Latency.AverageIsBetween` | src/latency.c:140-140 | The average lies between minimum and maximum. |
| `Latency.NoWrap` | src/latency.c:130-131 | With fewer than 2^32 records the 64-bit sum cannot overflow. |
| `Connection.RetryAccounting` | src/connection.c:359-393 | A send that reaches its loop adds k failures, k retries and one success, or max_retries + 1 failures and max_retries retries; sends stay successes plus failures and retries at most failures. |
| `Connection.Manager.Conserved` | src/connection.c:359-393 | Below 2^32 sends the stored counters themselves satisfy total = successful + failed and retries <= failed. |
| `Connection.Manager.Establish` | src/connection.c:105-167 | Connected to the asked device, verified at the clock's reading, after a successful probe among at most max_retries + 1; failed with the earlier device kept otherwise; nothing is probed when already connected to it. |
| `Connection.Manager.Verify` | src/connection.c:172-207 | Trusts the link within the interval without a probe, else probes once and reconnects when configured; it succeeds exactly when the clock's reading or one of those probes says so, with the same device, and leaves the link not connected otherwise. |
| `Connection.Manager.Reconnect` | src/connection.c:287-310 | Re-establishes the remembered device with at most max_retries + 1 probes; with none it changes nothing, and a failure forgets it. |
| `Connection.Manager.Disconnect` | src/connection.c:315-323 | Disconnected with no stored device. |
| `Connection.Manager.TestSend` | src/connection.c:212-236 | One real send, counted once; a zero code sends nothing. |
| `Connection.Manager.SendWithRetry` | src/connection.c:328-393 | Something is sent exactly when the link needs no verification or is up after verifying and reconnecting; only this code is sent, failures followed by at most one success, and the counters grow by exactly those outcomes. An exhausted send reconnects when configured: the link ends connected to the same device if and only if one of those probes answered, else failed with no device. |
| `Connection.Manager.GiveUp` | src/connection.c:380-392 | What an exhausted send does: nothing more without auto-reconnect, a connection or a device; else a reconnect whose probes decide status and device. |
| `Connection.TrustedMeans` | src/connection.c:182-185 | A link is trusted while the clock, counted around its 32 bits, is within the interval since its last verification, so right after one. |
| `Connection.GradesMean` | src/connection.c:35-53 | The grade is none without sends, else excellent, good, fair or poor by 19/20, 4/5 and 3/5 of them. |
| `Connection.Manager.BringUp` | src/connection.c:341-353 | The guard of a verified send: up exactly when the clock trusts the link or one of the probes it allows succeeds. |
| `Connection.Manager.IsConnected` | src/connection.c:263-272 | Answers whether the link was connected and, when verification is on, is up. |
| `Connection.Manager.Init` | src/connection.c:57-69 | The first initialisation starts disconnected with zero counters; later ones keep the state. |
| `Connection.Manager.ResetStats` | src/connection.c:398-402 | All counters restart at zero. |
| `Connection.Manager.Cleanup` | src/connection.c:407-415 | An initialised manager ends disconnected and uninitialised. |
| `UniversalTv.OrderIsStablePartition` | src/universal_tv.c:249-281 | Every table entry is attempted exactly once, the current brand's entries first, each group in table order. |
| `UniversalTv.OrderByBrand` | src/universal_tv.c:249-281 | With no brand chosen the order is the table's own; with one, the first part holds exactly the entries of that brand. |
| `UniversalTv.Universal.SendButton` | src/universal_tv.c:227-289 | The two passes attempt the table's entries in that order and succeed exactly when some entry's protocol is NEC, RC5, RC6 or Sony; an empty table falls back to the ordinary sender. |
| `UniversalTv.Universal.ScanNext` | src/universal_tv.c:315-346 | The k-th step attempts the entry at (k - 1) mod n; the exhausted branch is unreachable. |
| `UniversalTv.Universal.ScanConfirm` | src/universal_tv.c:348-382 | After k >= 1 steps entry (k - 1) mod n is chosen and its brand, when known, becomes current; before any step nothing is confirmed. |
| `UniversalTv.Universal.ScanStart` | src/universal_tv.c:291-313 | A button with codes starts a fresh scan; one without leaves any running scan alone. |
| `UniversalTv.Universal.ScanCancel` | src/universal_tv.c:384-391 | No scan is active afterwards. |
| `UniversalTv.Universal.Scan` | src/universal_tv.c:291-382 | Start, k >= 1 steps and confirm together: the tried entries wrap around the table, and a known brand puts the chosen entry inside the prefix of the next send. |
| `UniversalTv.ConfirmedComesFirst` | src/universal_tv.c:249-281 | Once an entry's brand is current, the entry lies in the brand prefix and all later positions are of other brands. |
| `Geometry.OverlapMeansSharing` | test_simulator/web_static/js/simulator/fp-collide.js:59-61 | For non-empty boxes the overlap test holds if and only if they share a point. |
| `Punch.PunchBox` | test_simulator/web_static/js/simulator/fp-collide.js:63-81 | The pushed parts are the slabs along x, then y, then z. |
| `Punch.PunchIsExact` | test_simulator/web_static/js/simulator/fp-collide.js:63-81 | Every point of the box outside the hole is in exactly one part and no other point is in any; the parts' volumes and the overlap's add up to the box's. |
| `Punch.PartsAreDisjoint` | test_simulator/web_static/js/simulator/fp-collide.js:63-81 | No two parts share a point. |
| `Punch.PartsAvoidHole` | test_simulator/web_static/js/simulator/fp-collide.js:63-81 | Every part lies within the box and does not overlap the hole. |
| `Punch.PunchAllIsExact` | test_simulator/web_static/js/simulator/fp-collide.js:83-89 | After any list of holes each point of the block outside all holes is in exactly one part and no other point is in any. |
| `Punch.StoredBlockers` | test_simulator/web_static/js/simulator/fp-collide.js:83-94 | What is stored overlaps no hole and is nowhere thinner than 0.02; what is dropped is thinner than 0.02; together they cover each solid point exactly once. |
| `Collision.Collider.constructor` | test_simulator/web_static/js/simulator/fp-collide.js:21-29 | The world starts empty, with the two openings of the exterior walls as holes. |
| `Collision.Collider.AddBlock` | test_simulator/web_static/js/simulator/fp-collide.js:83-94 | Appends the thick parts of the punched block to the blockers and changes nothing else; no stored blocker ever overlaps a hole or is thinner than 0.02. |
| `Collision.Collider.AddFloor` | test_simulator/web_static/js/simulator/fp-collide.js:96-105 | Floors outside [-0.2, 18] are ignored, those below 0.03 lie at 0, so stored heights stay in [0, 18]. |
| `Collision.GroundIsHighest` | test_simulator/web_static/js/simulator/fp-collide.js:314-323 | The support is the highest floor here that is at most 1.17 above the feet for a stair and 0.48 otherwise, or 0. |
| `Collision.GroundAtIsHighest` | test_simulator/web_static/js/simulator/fp-collide.js:325-334 | The ground is the highest of the five supports at the centre and 0.1 to each side. |
| `Collision.GroundInRange` | test_simulator/web_static/js/simulator/fp-collide.js:325-334 | The support is in [0, 18] and at most one stair height above the feet. |
| `Collision.Collider.GroundUnder` | test_simulator/web_static/js/simulator/fp-collide.js:314-323 | The loop over the floors computes that support. |
| `Collision.Collider.Ground` | test_simulator/web_static/js/simulator/fp-collide.js:325-334 | The highest support of the centre and four offsets. |
| `Collision.Collider.Move` | test_simulator/web_static/js/simulator/fp-collide.js:336-354 | The loop with its early exit computes the sliding walk followed by the push-out. |
| `Collision.MoveSlidesAlongZ` | test_simulator/web_static/js/simulator/fp-collide.js:345-352 | Along a wall across x the move keeps x and covers all of dz. |
| `Collision.MoveSlidesAlongX` | test_simulator/web_static/js/simulator/fp-collide.js:345-352 | Along a wall across z the move keeps z and covers all of dx, whether or not it could also slide along z. |
| `Collision.OneStepMove` | test_simulator/web_static/js/simulator/fp-collide.js:345-352 | A move of one sub-step ends at the first free of the diagonal, the x-only and the z-only position; with both displacements nonzero it stays put if and only if all three are hit. |
| `Collision.Collider.PushOutOf` | test_simulator/web_static/js/simulator/fp-collide.js:277-312 | The loop computes at most five pushes, each from the first box hit, blockers before doors. |
| `Collision.MoveEndsFree` | test_simulator/web_static/js/simulator/fp-collide.js:336-354 | From a free start the final push-out does nothing and the move ends free. |
| `Collision.MoveNeverTunnels` | test_simulator/web_static/js/simulator/fp-collide.js:336-354 | The path of `move` itself, from a free start with radius above 0.09: every point of every sub-step keeps a clearance of radius - 0.09 from every vertically overlapping box, and the last sub-step is where the move ends. |
| `Collision.MoveFreesWithRoom` | test_simulator/web_static/js/simulator/fp-collide.js:336-354 | Where any two boxes leave room for the circle, a move ends free from any start, even a blocked one. |
| `Circles.HitMeansNear` | test_simulator/web_static/js/simulator/fp-collide.js:255-264 | The collision test holds if and only if the box reaches into the body's height above its lowest 0.14 and some point of its rectangle is nearer than the radius. |
| `Circles.NoTunnelling` | test_simulator/web_static/js/simulator/fp-collide.js:336-354 | From a free start with radius above 0.09, every point of the path through every sub-step and slide keeps a clearance of radius - 0.09 from every vertically overlapping box. |
| `Circles.SegmentIsClear` | test_simulator/web_static/js/simulator/fp-collide.js:255-264 | Between free positions at most 0.18 apart the straight path keeps that clearance. |
| `Circles.StepsAreShort` | test_simulator/web_static/js/simulator/fp-collide.js:337-340 | Every sub-step is at most 0.18 long. |
| `Circles.Steps` | test_simulator/web_static/js/simulator/fp-collide.js:337-338 | The least number of sub-steps, at least one, that makes them short enough. |
| `Circles.NoOvershoot` | test_simulator/web_static/js/simulator/fp-collide.js:345-352 | Neither axis ever passes its requested displacement or moves the other way. |
| `Circles.FreePathArrives` | test_simulator/web_static/js/simulator/fp-collide.js:345-349 | A move whose sub-steps are all free arrives exactly where it was asked to. |
| `Circles.PushSeparates` | test_simulator/web_static/js/simulator/fp-collide.js:290-309 | One push, from inside or outside, leaves the circle at least radius + 0.01 from the box it picked. |
| `PushOuts.PushPicksFirst` | test_simulator/web_static/js/simulator/fp-collide.js:277-289 | A push happens exactly when some box is hit and goes out of the first one, blockers before doors. |
| `PushOuts.PushLands` | test_simulator/web_static/js/simulator/fp-collide.js:290-309 | A push leaves the centre within radius + 0.01 of the picked box on each axis and, from clearly outside it, within that of where it was. |
| `PushOuts.OnePushFrees` | test_simulator/web_static/js/simulator/fp-collide.js:277-312 | With any number of boxes one push is enough whenever every other box the circle could touch leaves room beside the box picked or beside the centre. |
| `PushOuts.WellSeparatedFrees` | test_simulator/web_static/js/simulator/fp-collide.js:277-312 | Among any boxes that are pairwise at least 2 * radius + 0.01 apart every push-out ends free after at most one push. |
| `PushOuts.FreeBetweenWalls` | test_simulator/web_static/js/simulator/fp-collide.js:277-312 | From between two facing walls of any thickness and length, along x or z, level with both and with no other box in reach: a push-out of at least three pushes ends free if and only if it started free, the walls are at least 2 * radius + 0.01 apart, or some wall is so thin or short that the push into it leaves it by another side. |
| `PushOuts.PushesCanFail` | test_simulator/web_static/js/simulator/fp-collide.js:277-312 | Between wall planes 0.2 thick and more than 0.19 but less than 0.57 apart a standing player who touches one is still inside a blocker after any number of pushes. |
| `PushOuts.PushedThroughWall` | test_simulator/web_static/js/simulator/fp-collide.js:290-309 | Between such planes less than 0.19 apart the push-out ends free beyond the second plane. |
| `PushOuts.AfterOneWall` | test_simulator/web_static/js/simulator/fp-collide.js:290-309 | Straight off one of two facing walls the circle is free, or the next push goes straight off the other wall, or it leads into the free by another side, exactly as the widths, thicknesses and margins say. |
| `PushOuts.CornerFrees` | test_simulator/web_static/js/simulator/fp-collide.js:277-312 | In front of two walls across different axes, before and after each push, and with no other box in reach: two pushes are always enough, and the push-out ends straight off each wall that was touched. |
| `Circles.PushOutStops` | test_simulator/web_static/js/simulator/fp-collide.js:279-310 | A push-out pushes exactly while the position is hit; it ends free or after all its pushes. |
| `Circles.PushOutOfFree` | test_simulator/web_static/js/simulator/fp-collide.js:279-289 | Pushing out of a free position does nothing. |
| `Motion.FallLosesEnergy` | test_simulator/web_static/js/simulator/fp-move.js:197-199 | A frame of free fall lowers y + vy^2 / 36 by exactly 9 dt^2, whatever the frame time. |
| `Motion.FrameLaws` | test_simulator/web_static/js/simulator/fp-move.js:179-199 | One frame in the source's numbers: jump at 5.5, stand at most 0.02 above the support when not rising, fall by 18 a second otherwise. |
| `Motion.FrameIsSafe` | test_simulator/web_static/js/simulator/fp-move.js:178-199 | One frame over any support in [0, 18] keeps the invariant: above -1.4, bounded energy, standing means at rest. |
| `Motion.RunIsSafe` | test_simulator/web_static/js/simulator/fp-move.js:151-202 | On every run of frames the player stays above -1.4, so the rescue below -2 never happens. |
| `Motion.JumpRiseIsBounded` | test_simulator/web_static/js/simulator/fp-move.js:178-199 | Until the next landing a jump never rises more than JUMP^2 / (2 GRAVITY) above its start, for every sequence of frame times and supports. |
| `Motion.FrameTime` | test_simulator/web_static/js/simulator/fp-move.js:153-153 | Frame times between 0.001 and 0.05 are used as they are, 0 counts as 0.016, others are clamped to that range. |
| `Motion.Player.Update` | test_simulator/web_static/js/simulator/fp-move.js:151-202 | One frame on the mutable player: slide when the collision world is ready and move freely otherwise, clamp to the world, then the vertical frame over the ground found there. |
| `Motion.Player.UpdateVertical` | test_simulator/web_static/js/simulator/fp-move.js:179-202 | Jump, land or fall as specified, a queued jump from the ground taking off in this frame; the rescue branch is unreachable. |
| `Motion.Player.SettleAt` | test_simulator/web_static/js/simulator/fp-move.js:111-123 | The player stands at rest on the ground near the place, pushed out of what is there; without a collision world, at height 0. |

## Left out

- Web routes, sockets, frames, HTTP clients, MQTT, webhooks, adapters and drawing: input and output plumbing.
- Scene building, mesh classification, doors, audio, camera and head bob: library code or presentation. Floors, blockers and door boxes are arbitrary lists.
- Button tables, IR code tables, handler registration, graphics presets, brand keywords, `io_mode.c` and `system_handler.c`: finite tables and easy members.
- IEEE rounding: geometry and timings are exact reals, percentile indices are floor(95n/100) and floor(99n/100), success rates are exact ratios.
- Parsing of the rate-limit setting, of "h:m" rule times and of day names: these arrive parsed, a missing or malformed time being its own case and day names being lower-case.
- Horizontal speed from keys, yaw and sprint: one frame's requested displacement is an input of `Motion.Player.Update`.
- Clamping to the world's edge after a move, and doors that close or a player who stands up inside a blocker: they can put a free player into a blocker, so the no-tunnelling results are about the move itself.
- Pauses between the universal sender's attempts, and the messages and events printed or raised along the way.
- Sleeping when no trace hook is installed: the emitter's requested waveform is recorded instead.
- Recording more than 2^32 - 1 latencies between two resets: the source's count would wrap to 0 and divide by it.
- Scheduler rules whose evaluation raises: the source's loop drops the rest of that tick.
- Latency.QSort: stands for the C library's sort; only that it permutes and orders the samples is used.
- PushOuts.OnePushFrees: its condition is sufficient; the exact one is given for a start between two facing walls, and for boxes that leave less room in other ways only `PushOuts.CornerFrees` and `Circles.PushOutStops` hold.
