# PPM receiver core, modelled in Dafny

The firmware is an ESP32 drone receiver. It receives channel values over UDP
and turns them into a PPM (pulse-position modulation) signal on one output pin.
Three pieces of sequential logic do the work, and this project models each one:

- **The frame state machine** `onPpmTimer` (main/main.c). A hardware timer
  restarts after every expiry. On each expiry the handler moves IDLE → PULSE →
  FILL → PULSE …, sets the output level, and programs the next alarm duration.
  A frame is 8 pulses of 300 ticks. For k < 7, channel k's slot is
  `channelValue[k]` ticks long, pulse included. The eighth slot is 300 ticks
  of pulse plus whatever is left of the 22500-tick frame, so `channelValue[7]`
  is read but never used. The `int` durations of a frame sum to 22500 even
  when the buffer changes mid-frame. `ppm_start` arms a first alarm of 12000.
- **The receive loop** of `udp_server_task` (main/main.c). `strtok` splits a
  datagram on the delimiters `rptymag`, and the tokens are stored, in order,
  into `channelValue[0..]`. Every timeout increments `failsafe_count`. At 50
  the counter saturates, and channels 2 and 4 are forced to 1000 and 2000.
- **Clock-change support** (components/ppm_generator/ppm_generator.c):
  - the duplicate-rejecting, prepend-only doubly linked callback list
    `addApbChangeCallback`;
  - the divider rescale in `_on_apb_change`;
  - the `timer_cfg_t` bitfield word that `timerGetConfig` packs and
    `timerGetDivider` unpacks;
  - the timer wrappers;
  - `ppm_init`.

Modules:

| module | file | form |
|---|---|---|
| `CTypes` | ctypes.dfy | C integer widths, and the `int` → `uint64_t` and → `uint16_t` conversions |
| `TimerConfig` | timer_config.dfy | pure: `timer_cfg_t` pack/unpack, `timerGetConfig`, `timerGetDivider` |
| `HwTimer` | hw_timer.dfy | class `Timer`: an abstract record of the timer registers. There is one method for each of `timerSetDivider`, `timerStart`, `timerStop`, `timerAlarmEnable`, `timerAlarmWrite` (which includes `timerSetAutoReload`), `timerGetConfig` and `timerGetDivider`, and one each for the driver calls `timer_init` and `timer_set_counter_value` that `ppm_init` makes |
| `ApbCallbacks` | apb_callbacks.dfy | class `Registry` over `Node` objects, mutated in place |
| `ApbRescale` | apb_rescale.dfy | the divider formula as a function with lemmas; `_on_apb_change` as a method on a `Timer` |
| `PpmInit` | ppm_init.dfy | `ppm_init` as a method |
| `PpmFrame` | ppm_frame.dfy | the specification of one `onPpmTimer` call (`Fire`), runs of calls, and the frame lemmas |
| `PpmSignal` | ppm_signal.dfy | class `Generator`: holds the handler's statics, `onPpmTimer` and `ppm_start` |
| `ChannelUpdate` | channel_update.dfy | specification of `strtok` and of the failsafe, with lemmas |
| `UdpServer` | udp_server.dfy | class `ServerTask`: the `strtok` loop writing the `channelValue` array, and the timeout arm |

The state-changing methods of `Generator` and `ServerTask` are proved against
specification functions: `OnPpmTimer` against `Fire`, `ReceiveCycle` against
`Cycle`, `CountTimeout` against `Timeout`. The properties the firmware promises
are lemmas about those functions. `Registry.Add` is proved against the ghost
sequence `contents` that its validity predicate ties to the linked nodes. The
read-only `Timer.GetConfig` returns a word whose fields `Unpack` gives back.

Where the code does something other than the natural reading, the model
follows the code:

- **Gap after the eighth pulse.** With every channel at 1500, one might expect
  eight slots of 1500 and a gap of 22500 − 8·1500 = 10500. The code never
  uses `channelValue[7]` for a duration, and the gap is
  22500 − 7·1500 − 300 = 11700 (`DefaultFrame`, `LastChannelIgnored`).
- **Divide-by-zero guard.** One might expect an old frequency below 1 MHz to
  skip the rescale. The code has no such guard and divides by
  `old_apb / 1000000`. The model therefore requires `oldApb >= 1000000`.
- **Valid channel values.** A range check on each channel value on its own is
  not what the code needs. What it actually needs is
  `ValidChannels`: channels 0-6 each at least 300, and their sum plus 300 at
  most 22500. Exactly then is every alarm of a frame non-negative
  (`AlarmsNonNegative`).
- **Mid-frame rewrites.** Checking each buffer on its own does not protect the
  final gap when the receive task rewrites the buffer during a frame. What
  matters is the eight values the FILLs actually read, one per channel
  (`FrameReads`). If those are valid together, no alarm wraps
  (`MidFrameAlarmsDoNotWrap`). Two buffers that are each valid can still make
  the final gap −19300, which reaches the timer as 2^64 − 19300
  (`MidFrameRewriteWraps`).
- **Counter reset.** The failsafe counter is reset inside the `strtok` loop. So
  a datagram with no token (only delimiters) does not reset it (`Cycle`,
  `ReceiveStoresTokens`).

## Model

| member | source | states |
|---|---|---|
| CTypes.ToUint64 | components/ppm_generator/ppm_generator.c:140 | an `int` passed as `uint64_t` is kept when it is in range, and a negative one becomes itself plus 2^64 |
| CTypes.ToUint16 | components/ppm_generator/ppm_generator.c:158 | a value below 2^16 survives the conversion to `uint16_t` |
| TimerConfig.Pack | components/ppm_generator/ppm_generator.c:10-22 | writing the eight bitfields and reading `val` gives a word whose bitfields read back exactly as written |
| TimerConfig.PackedRange | components/ppm_generator/ppm_generator.c:10-22 | the positional sum of in-range fields fits in 32 bits |
| TimerConfig.PackedFields | components/ppm_generator/ppm_generator.c:10-22 | every field of the packed word unpacks to the value written (LSB-first layout) |
| TimerConfig.PackedLowFields | components/ppm_generator/ppm_generator.c:12-15 | `reserved0`, `alarm_en`, `level_int_en` and `edge_int_en` read back at bits 0-9, 10, 11 and 12 |
| TimerConfig.PackedDivider | components/ppm_generator/ppm_generator.c:16 | the divider reads back at bits 13-28 |
| TimerConfig.PackedHighFields | components/ppm_generator/ppm_generator.c:17-19 | `autoreload`, `increase` and `enable` read back at bits 29, 30 and 31 |
| TimerConfig.Unpack | components/ppm_generator/ppm_generator.c:10-22 | the bitfield view of any word, with each field put back at its offset, sums to the word |
| TimerConfig.ConfigWord | components/ppm_generator/ppm_generator.c:92-101 | the word `timerGetConfig` builds carries the driver's divider truncated to 16 bits, and the uninitialised stack bits as `reserved0` |
| TimerConfig.DividerOf | components/ppm_generator/ppm_generator.c:145-149 | reading `config.divider` from a word that packs some fields returns exactly the divider that was packed |
| TimerConfig.DividerRoundTrip | components/ppm_generator/ppm_generator.c:87-102 | `timerGetDivider` after `timerGetConfig` gives the driver's divider truncated to 16 bits, whatever the flags and the uninitialised reserved bits |
| TimerConfig.DividerIgnoresFlags | components/ppm_generator/ppm_generator.c:92-101 | two configurations with the same divider read back the same divider, whatever their flags and reserved bits |
| TimerConfig.FlagsRoundTrip | components/ppm_generator/ppm_generator.c:93-99 | each flag bit of the word reports the driver's field: `level_int_en` is set exactly when `intr_type` is 0, `edge_int_en` is the low bit of `intr_type`, and the reserved bits are the stack contents |
| TimerConfig.Peel | components/ppm_generator/ppm_generator.c:10-22 | every 32-bit word is the positional sum of its eight fields |
| TimerConfig.UnpackPack | components/ppm_generator/ppm_generator.c:10-22 | every word is the packing of its own fields, so the union's two views are inverse |
| HwTimer.Timer.constructor | components/ppm_generator/ppm_generator.c:24-32 | a timer names its group and number and starts stopped, with the alarm disabled |
| HwTimer.Timer.Init | components/ppm_generator/ppm_generator.c:176-184 | `timer_init` sets divider, direction, counter enable, alarm enable and auto-reload from the configuration, with a zero interrupt type; the alarm value and the counter are left as they were |
| HwTimer.Timer.SetCounterValue | components/ppm_generator/ppm_generator.c:185 | only the counter changes, to the value given |
| HwTimer.Timer.AlarmWrite | components/ppm_generator/ppm_generator.c:140-143 | `timerAlarmWrite` changes only the alarm value and the auto-reload flag |
| HwTimer.Timer.AlarmEnable | components/ppm_generator/ppm_generator.c:136-138 | only the alarm-enable flag changes, to set |
| HwTimer.Timer.Start | components/ppm_generator/ppm_generator.c:128-130 | only the counter-enable flag changes, to running |
| HwTimer.Timer.Stop | components/ppm_generator/ppm_generator.c:132-134 | only the counter-enable flag changes, to paused |
| HwTimer.Timer.SetDivider | components/ppm_generator/ppm_generator.c:120-122 | only the divider changes, to the value given |
| HwTimer.Timer.GetConfig | components/ppm_generator/ppm_generator.c:87-102 | the returned word unpacks to the timer's alarm enable, interrupt type bits, divider, auto-reload, direction and enable, with the given reserved bits |
| HwTimer.Timer.GetDivider | components/ppm_generator/ppm_generator.c:145-149 | `timerGetDivider` returns exactly the timer's divider |
| ApbCallbacks.Node.constructor | components/ppm_generator/ppm_generator.c:61-64 | a new node holds `arg` and `cb`, with null `prev` and `next` |
| ApbCallbacks.Registry.constructor | components/ppm_generator/ppm_generator.c:41 | the list starts empty and valid |
| ApbCallbacks.Registry.Contains | components/ppm_generator/ppm_generator.c:69-71 | the duplicate search finds a node exactly when `(arg, cb)` is already registered |
| ApbCallbacks.Registry.Prepend | components/ppm_generator/ppm_generator.c:78-80 | the new node becomes the head, its `next` is the old head, the old head's `prev` is the new node, the list order and uniqueness are kept, and the registration is added in front |
| ApbCallbacks.Registry.Add | components/ppm_generator/ppm_generator.c:55-85 | returns true exactly when allocation succeeds and the pair is new; on success the pair is prepended as the new head, linked both ways to the old head (the sole node when the list was empty); on an allocation failure or a duplicate, nothing changes; no two entries ever share `(arg, cb)` |
| ApbRescale.RescaledDivider | components/ppm_generator/ppm_generator.c:156-158 | the divider formula; a new clock below 1 MHz truncates to zero MHz and so gives divider 0, and a zero divider stays 0 |
| ApbRescale.RescaleKeepsTickLength | components/ppm_generator/ppm_generator.c:156-158 | when the quotient fits in 16 bits, the new divider per new MHz is the old divider per old MHz, up to less than one tick of truncation |
| ApbRescale.ProductFitsUint32 | components/ppm_generator/ppm_generator.c:158 | the `uint32_t` product of the new MHz and a 16-bit divider never wraps |
| ApbRescale.SameFrequencyKeepsDivider | components/ppm_generator/ppm_generator.c:156-158 | a change that keeps the whole-MHz frequency keeps the divider |
| ApbRescale.HalvingTheClockHalvesTheDivider | components/ppm_generator/ppm_generator.c:156-158 | 80 MHz → 40 MHz with divider 80 gives divider 40 |
| ApbRescale.ScaleDownAndBack | components/ppm_generator/ppm_generator.c:156-158 | scaling the clock down by a whole factor that divides the divider, and back up, restores the divider |
| ApbRescale.OnApbChangeCallback | components/ppm_generator/ppm_generator.c:151-162 | a BEFORE event only stops the timer; an AFTER event sets the divider to the rescaled value of the one read back and restarts the timer; the alarm value, auto-reload, alarm enable, direction and counter never change |
| PpmInit.Init | components/ppm_generator/ppm_generator.c:164-189 | afterwards timer 0 has divider 80, counts up from 0, is running, has its alarm disabled, auto-reload off and interrupt type 0; `(timer, _on_apb_change)` is registered exactly when allocation succeeded or it already was, and the list is otherwise unchanged |
| PpmFrame.Fire | main/main.c:174-209 | after a call the channel is in `[0, 8)`; the next state is PULSE after a FILL and FILL otherwise; the output is high exactly when FILL comes next; a high output always lasts 300 ticks |
| PpmFrame.Run | main/main.c:164-212 | `n` expiries produce `n` alarms and keep the channel in range |
| PpmFrame.ChannelSlot | main/main.c:182-208 | the pulse and fill of channel k < 7 last `channelValue[k]` together and lead to channel k+1's pulse, with the used length grown by that value |
| PpmFrame.FinalSlot | main/main.c:182-203 | the last pulse and the final gap fill the frame and return to channel 0 with nothing used |
| PpmFrame.RestOfFrame | main/main.c:182-209 | from channel k's pulse, with the first k slots used, the remaining expiries produce exactly the frame alarms and end at the start of a new frame |
| PpmFrame.RestOfFrameSum | main/main.c:198-207 | those expiries use up exactly what is left of the 22500-tick frame |
| PpmFrame.FrameLength | main/main.c:182-209 | from a frame start, 16 expiries produce 8 pulses, 7 channel fills and the final gap; these sum to 22500 whatever the channel values, and the run ends at the next frame start |
| PpmFrame.RunEach | main/main.c:164-212 | expiries where expiry i reads its own buffer: one alarm per expiry, with the channel kept in range |
| PpmFrame.TwoExpiriesEach | main/main.c:182-209 | the alarms of the first two such expiries head the run |
| PpmFrame.RestOfFrameEach | main/main.c:182-209 | from channel k's pulse, whatever was used so far and whatever each expiry reads, the rest of the frame sums to 22500 minus what was used, and ends at the start of a new frame |
| PpmFrame.FrameLengthEach | main/main.c:198-203 | the `int` alarm durations of a frame sum to 22500 and the run returns to a frame start, even when the receive task rewrites the buffer between any two expiries |
| PpmFrame.RunEachReads | main/main.c:182-209 | a FILL reads only its own channel of the current buffer and a PULSE reads nothing, so from channel k's pulse the rewritten run equals the fixed-buffer run on the values the FILLs read |
| PpmFrame.FrameReads | main/main.c:193 | the values a frame's FILLs read form one channel value per channel |
| PpmFrame.FrameEachAlarms | main/main.c:182-209 | with mid-frame rewrites, alarm i of a frame is the frame alarm of the values the FILLs read |
| PpmFrame.MidFrameAlarmsDoNotWrap | main/main.c:193-207 | if the values the FILLs read are valid together, no alarm of a frame with mid-frame rewrites wraps on its way into `uint64_t` |
| PpmFrame.MidFrameRewriteWraps | main/main.c:198-203 | two buffers, each valid on its own, make the final gap −19300 when the first is read for channel 0 and the second for the rest, and the timer receives 2^64 − 19300 |
| PpmFrame.RunEachConstant | main/main.c:164-212 | with the same buffer at every expiry, the per-expiry run is the fixed-buffer run |
| PpmFrame.FirstExpiry | main/main.c:174-189 | the first expiry finds IDLE, resets channel and used length, and takes the PULSE branch in the same call |
| PpmFrame.BootFrame | main/main.c:166-189 | the first frame after boot is identical to a frame started at channel 0 and also lasts 22500 |
| PpmFrame.PulseExpiry | main/main.c:182-189 | a PULSE expiry sets output high, programs a 300-tick alarm, adds 300 to the used length and moves to FILL on the same channel |
| PpmFrame.FillExpiry | main/main.c:190-208 | a FILL expiry before the last channel sets output low, programs `v - 300` where v is the channel's value, adds the same to the used length and moves to the next channel's PULSE |
| PpmFrame.FinalFillExpiry | main/main.c:198-203 | the last channel's FILL programs the rest of the frame and resets channel and used length to 0 |
| PpmFrame.SlotWidth | main/main.c:185-207 | each of the first seven slots, pulse plus fill, lasts exactly its channel value |
| PpmFrame.AlarmsNonNegative | main/main.c:201-207 | every alarm of a frame is non-negative if and only if the channel values are valid |
| PpmFrame.ValidAlarmsDoNotWrap | main/main.c:201-207 | with valid 16-bit channel values no alarm wraps on its way into the `uint64_t` parameter |
| PpmFrame.ShortChannelWraps | main/main.c:206-207 | a channel value below 300 makes the FILL alarm 2^64 − (300 − v) ticks |
| PpmFrame.LastChannelIgnored | main/main.c:193-203 | any run of expiries is the same whatever `channelValue[7]` holds |
| PpmFrame.DefaultFrame | main/main.c:25-28 | with all channels at 1500 the channels are valid, each of the first seven fills lasts 1200, and the gap after the eighth pulse lasts 11700 |
| PpmSignal.NewChannelValues | main/main.c:28 | the channel buffer has 8 entries, all 1500 |
| PpmSignal.Generator.constructor | main/main.c:166-169 | the statics start as IDLE, channel 0, output 0, nothing used |
| PpmSignal.Generator.OnPpmTimer | main/main.c:164-212 | the statics advance as `Fire` says; the alarm `Fire` computes is written, converted to `uint64_t`, with auto-reload; the pin is set to the output; nothing else of the timer changes |
| PpmSignal.Generator.Start | main/main.c:214-220 | after `ppm_init` the first alarm is 12000 with auto-reload and enabled; the timer runs counting up with divider 80 from 0, with interrupt type 0; the handler's statics are untouched; the callback is registered as in `ppm_init` |
| ChannelUpdate.IsDelimiter | main/main.c:44 | a character is a delimiter exactly when it is one of `rptymag` |
| ChannelUpdate.SkipDelimiters | main/main.c:79-84 | `strtok` skips forward to the first non-delimiter or the end |
| ChannelUpdate.SkipDelimitersSpan | main/main.c:79-84 | everything skipped is a delimiter |
| ChannelUpdate.TokenEnd | main/main.c:79-84 | a token ends at the next delimiter or the end |
| ChannelUpdate.TokenEndSpan | main/main.c:79-84 | a token contains no delimiter |
| ChannelUpdate.NextToken | main/main.c:79-84 | a token is non-empty, and `strtok` resumes strictly past where it started |
| ChannelUpdate.NextTokenMeaning | main/main.c:79-84 | `strtok` returns null exactly when only delimiters remain, and a returned token contains no delimiter |
| ChannelUpdate.TokensAreClean | main/main.c:79-87 | every token of a datagram is non-empty and free of delimiters |
| ChannelUpdate.TokensFrom | main/main.c:79-84 | repeated `strtok` calls from an index until the null pointer; there are at most as many tokens as characters left |
| ChannelUpdate.Tokens | main/main.c:79-84 | the tokens of a whole datagram; there are at most as many as its characters |
| ChannelUpdate.NextTokenStep | main/main.c:81-84 | each `strtok(NULL, delim)` call yields the next token in order |
| ChannelUpdate.SplitFrom | main/main.c:79-84 | a reference split of a string into the fields between delimiters, empty fields included; it has at least one field |
| ChannelUpdate.SplitFirstField | main/main.c:79-84 | the first field runs to the first delimiter, and the rest is the split after it |
| ChannelUpdate.SkipLeadingDelimiter | main/main.c:79-84 | a leading delimiter changes neither the tokens nor the non-empty fields |
| ChannelUpdate.TakeToken | main/main.c:79-84 | a token ending at a delimiter is the first non-empty field |
| ChannelUpdate.TakeLastToken | main/main.c:79-84 | a token running to the end is the last field |
| ChannelUpdate.TokensAreNonEmptyFields | main/main.c:79-87 | the tokens `strtok` returns are exactly the non-empty fields between delimiters, in order |
| ChannelUpdate.TokensOfDatagram | main/main.c:79-87 | the tokens of a datagram are its non-empty fields |
| ChannelUpdate.Values | main/main.c:83 | one converted value per token |
| ChannelUpdate.ReceiveStoresTokens | main/main.c:79-87 | on a datagram, token k is stored in channel k; channels past the last token keep their values; the counter becomes 0 exactly when there was a token or it already was 0; a datagram without tokens changes nothing |
| ChannelUpdate.Store | main/main.c:83-86 | the first values overwrite the first channels in order, and the other channels keep their values |
| ChannelUpdate.Timeout | main/main.c:94-103 | a timeout sets the counter to `min(count + 1, 50)`; when it reaches 50, channel 2 holds 1000 and channel 4 holds 2000 |
| ChannelUpdate.Cycle | main/main.c:79-104 | one pass keeps 8 channels; a timeout sets the counter to `min(count + 1, 50)`; a datagram of 8 tokens sets every channel from the data |
| ChannelUpdate.StoreNext | main/main.c:83-86 | storing one more token writes just its channel |
| ChannelUpdate.TimeoutChangesOnlyFailsafeChannels | main/main.c:94-103 | a timeout changes no channel other than 2 and 4, and none at all below the threshold |
| ChannelUpdate.Timeouts | main/main.c:94-103 | repeated timeouts keep 8 channels |
| ChannelUpdate.ConsecutiveTimeouts | main/main.c:94-103 | after n timeouts the counter is `min(count + n, 50)`; below 50 no channel changes; from 50 on, channel 2 holds 1000 and channel 4 holds 2000; every other channel is unchanged |
| ChannelUpdate.ForcedStaysForced | main/main.c:96-103 | once forced and clamped, further timeouts leave everything as it is |
| ChannelUpdate.CycleKeepsCountInRange | main/main.c:79-104 | every pass keeps `failsafe_count` within `[0, 50]` |
| ChannelUpdate.FullDatagramReleasesFailsafe | main/main.c:79-87 | a datagram of 8 tokens sets every channel from the data, including the forced ones, and resets the counter |
| UdpServer.ServerTask.constructor | main/main.c:48 | the counter starts at 0 |
| UdpServer.ServerTask.CountTimeout | main/main.c:94-103 | the array and counter become `Timeout` of their old values |
| UdpServer.ServerTask.StoreTokens | main/main.c:79-87 | on a datagram the array holds the converted tokens in order, followed by its old tail, and the counter is 0 if a token was stored; on a timeout nothing changes |
| UdpServer.ServerTask.ReceiveCycle | main/main.c:79-104 | the array and counter become `Cycle` of their old values, for the received length and text |

## Left out

- WiFi setup and events, socket creation, `bind`, `setsockopt`, `recvfrom`, `vTaskDelay`, task creation and `app_main` (main/main.c:41-77, 105-162, 222-229): these are I/O plumbing. The outcome of `recvfrom` is the pair of parameters `len` and `text`.
- `atof` and the conversion of its `double` to `uint16_t` (main/main.c:83): this is floating point. It is the function parameter `toValue`.
- Critical sections, the `apb_change_lock` mutex, `initApbChangeCallback`, interrupt context, and the unprotected sharing of `channelValue` between the UDP task and the interrupt: each call is treated as atomic. `Generator` and `ServerTask` may share one array, but no interleaving is modelled.
- HwTimer.Timer.Init: assumes that ESP-IDF's `timer_init` leaves the alarm value and the counter as they were. `timer_init` is not part of this model.
- The ESP-IDF driver calls are not modelled. The `Timer` class stands for the registers they touch.
- `timerFnWrapper`, `timerAttachInterruptFlag` and `timerAttachInterrupt` (components/ppm_generator/ppm_generator.c:104-118), and the `timerAttachInterrupt` call in `ppm_start`: these are interrupt dispatch. `OnPpmTimer` is the handler once it has been dispatched.
- `gpio_config` (ppm_init) and `gpio_set_level`: these are foreign calls. The pin is the field `pinLevel`.
- `malloc` success is the parameter `allocOk`. `free` and memory exhaustion are not modelled.
- The `timer_dev` table: only entry 0 is used, as the `dev` parameter of `PpmInit.Init`.
- Real-time accuracy and hardware divider limits: durations are tick counts.
- The receive buffer's `strtok`-before-NUL-termination quirk and embedded NUL bytes: `text` is the string `strtok` scans. The termination at main/main.c:91 only affects what the next pass sees.
- `PPM_STATE_SYNC` is declared but never entered.
- `printf("FAILSAFE!!!")` (main/main.c:99) is console output, so it is not modelled.
- components/ppm_generator/include/ppm_generator.h holds declarations only. Its `apb_change_ev_t` becomes `ApbChangeEvent`.
- Nothing in these files dispatches the registered clock-change callbacks. `OnApbChangeCallback` models one such call on its own.
- `usedFrameLength` is a C `int`, but the model uses an unbounded integer. With 16-bit channel values it stays far below 2^31.
- `ppmChannel` is a `uint8_t`, but the model uses a `nat`. It never leaves `[0, 8)` (`PpmFrame.Fire`), so no wrap is possible.
- ApbRescale.RescaledDivider: requires `oldApb >= 1000000`, because below that the code divides by zero, which is undefined behaviour rather than a result.
- UdpServer.ServerTask.StoreTokens: requires at most 8 tokens in a datagram. The code stores without a bound check, so a ninth token writes past `channelValue`, which is undefined behaviour.
- UdpServer.ServerTask.ReceiveCycle: carries the same at-most-8-tokens requirement as `StoreTokens`.
- ChannelUpdate.Cycle: carries the same at-most-8-tokens requirement as `StoreTokens`.
- ApbRescale.RescaleKeepsTickLength: the bracket is stated only when the rescaled quotient fits in 16 bits. Above that, the `uint16_t` truncation in the code loses the high bits.
