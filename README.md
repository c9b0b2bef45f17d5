# ESP32 sensor firmware: detectors and drivers, modelled in Dafny

This project models the sensor-reading core of an ESP32 health-monitoring
firmware, and proves properties about that model:

- **Heart-rate detector, current revision** (`src/heartrate.c`). It polls an
  ADC channel and compares each reading with a threshold, which gives a
  two-state pulse machine. A rising edge switches the LED on, stamps the
  start time and resets the timeout reference. A falling edge switches the
  LED off and counts a beat. After `required_beats` beats it returns
  `required_beats * 60000000 / duration` in a `u_int8_t`. It returns 0 when
  no rising edge has come for longer than `timeout_ms`.
- **Heart-rate detector, older revision, and the record readers**
  (`src/sensors.c`).
  - The older detector uses the same edge logic. Its timeout is measured in
    seconds from the first rising edge, and is checked only once such an
    edge has been seen.
  - `get_am2320_data` and `get_photo_data` allocate a zeroed record and fill
    it in.
- **HX710B 24-bit ADC driver** (`src/hx710b.c`).
  - `shiftInSlow` clocks in a byte, MSB or LSB first.
  - `hx710b_read` waits for DOUT to go low and reads three bytes, most
    significant first. It then pulses SCK `gain + 1` times and sign-extends
    the 24-bit two's-complement value to a 32-bit `long`.
  - `hx710b_read_average` averages several reads with C's truncating
    division.
  - Also modelled: readiness polling, initialisation and power control.

Hardware becomes data. The ADC and the microsecond timer are a sequence of
samples (`Pulse.Sample`), one reading and one timer value per loop iteration.
The two HX710B lines are an object (`Hx710b.Lines`) whose methods append to a
log of SCK levels and consume a stream of DOUT levels. The LED is the
sequence of levels written to it.

C integer behaviour is written out in `CInt`:

- `u_int8_t` truncation of the BPM;
- `u_int32_t` wrap-around of `timeout_ms * 1000`;
- the `(long)` cast of an `unsigned long`;
- C's truncating signed division.

Each detector loop is a `method` proved equal to a recursive function of the
samples (`Run`). That function is then characterised against a reference
description of the stream by its threshold crossings (`Falls`,
`FirstAboveTime`, `LastRiseTime`, `EdgeLeds`). The HX710B methods are proved
against `ByteValue`, `Decode` and `Readings`. `Decode` is the inverse of
`Encode`.

Files:

- `c_int.dfy`: C integer arithmetic.
- `pulse.dfy`: the parts both detector revisions share, and the reference
  description of a stream.
- `heartrate.dfy`: the current detector.
- `sensors.dfy`: the record readers and the older detector.
- `revisions.dfy`: the two detector revisions compared.
- `hx710b.dfy`: the HX710B driver.

## Model

| member | source | states |
|---|---|---|
| CInt.ToU8 | src/heartrate.c:51 | Storing into a `u_int8_t` gives a value in 0..255. It equals the input modulo 256 and is the input itself when that already fits. |
| CInt.ToU32 | src/heartrate.c:38 | `u_int32_t` arithmetic gives the result modulo 2^32, in 0..2^32-1. It is the exact result when that fits. |
| CInt.ToInt32 | src/hx710b.c:91 | The cast `(long)` of a 32-bit unsigned value is a 32-bit signed value. It equals the input or the input minus 2^32, and it is negative exactly when the input exceeds INT_MAX. |
| CInt.Div | src/hx710b.c:100 | C's signed `/`: the remainder is smaller in magnitude than the divisor, and it is zero or has the sign of the dividend (truncation toward zero). |
| Pulse.SetLed | src/heartrate.c:20-22 | No level is written when the LED is `GPIO_NUM_NC`. Otherwise exactly the given level is written, once. |
| Pulse.Bpm | src/heartrate.c:50-51 | The BPM stored in the `u_int8_t` lies in 0..255. |
| Pulse.EdgeOf | src/heartrate.c:18-28 | A sample is a rising edge exactly when no pulse is active and it is at or above the threshold. It is a falling edge exactly when a pulse is active and it is below the threshold. It is neither exactly when the pulse phase already agrees with the reading. The older revision has the same tests (`src/sensors.c:62,70`). |
| Pulse.EdgeLed | src/heartrate.c:18-35 | An edge writes at most one LED level, and only when an LED is connected: 1 for a rising edge and 0 for a falling edge. A sample with no edge writes nothing. The older revision writes the same levels (`src/sensors.c:62-76`). |
| HeartRate.Deployment | include/config.h:12-14 | The deployed constants (threshold 3000, 7 beats, 2000 ms) fit their C parameter types. `7 * 60000000` fits an `int`. The timeout is 2000000 µs. |
| HeartRate.TimeoutUs | src/heartrate.c:38 | `timeout_ms * 1000` is a `u_int32_t`. It is exact up to 4294967 ms and wraps above that (4294968 ms gives 704 µs). |
| HeartRate.Init | src/heartrate.c:10-13 | On entry no pulse is active, no beat is counted, `start_time` is unset (0), and `timeout_time` is the timer reading taken on entry. |
| HeartRate.Step | src/heartrate.c:18-35 | After a sample the pulse flag says whether the sample was at or above the threshold. A beat is counted exactly when an active pulse ends. `start_time` is set to the sample's time by a rising edge while it is unset, and changes in no other case. `timeout_time` moves to the sample's time exactly on a rising edge. A sample with no edge changes nothing. |
| HeartRate.RunFrom | src/heartrate.c:15-51 | The loop from its guard, with k samples taken, as a function of the samples. It takes at least the k samples already taken and at most all of them. Its outcome, LED writes and end state are characterised by the lemmas below. |
| HeartRate.Run | src/heartrate.c:8-53 | A whole call, from the entry reading. It takes at most all the samples. |
| HeartRate.GetHeartRate | src/heartrate.c:8-54 | The polling loop returns the outcome of `Run` and writes the same LED levels. |
| HeartRate.FoldCharacterised | src/heartrate.c:15-35 | After any prefix of the stream, the loop variables are the stream's crossings. `pulse_started` says whether the last sample was above the threshold. `beats_detected` is the number of completed pulses. `start_time` is the time of the first sample above the threshold. `timeout_time` is the time of the last pulse start, or the entry time when there was none. |
| HeartRate.DoneAt | src/heartrate.c:15 | The loop guard fails after j samples when `required_beats` beats are counted. Before any sample it fails exactly when `required_beats` is 0 or less. |
| HeartRate.DoneAtCharacterised | src/heartrate.c:15 | The guard fails after j samples exactly when those samples hold at least `required_beats` completed pulses. |
| HeartRate.TimedOutAt | src/heartrate.c:38 | The timeout check in the iteration that takes sample j - 1. It fires only when that timer reading is later than `timeout_time`. |
| HeartRate.TimedOutAtCharacterised | src/heartrate.c:38 | The check fires after j samples exactly when the j-th sample comes more than the timeout after the last pulse start among them, or after entry when there was none. |
| HeartRate.RunStopsAtFirstExit | src/heartrate.c:15-48 | A call stops at the first exit point. It takes samples while fewer than `required_beats` beats are counted and no timeout check has fired. It measures at the first sample where the count is reached, and returns 0 in the iteration whose timeout check fires. The LED receives the edge writes of the samples taken, plus one extra 0 on timeout. |
| HeartRate.RunBeatsBounded | src/heartrate.c:15 | The beat count never exceeds `required_beats`. A call measures exactly when the count equals `required_beats` and the call did not time out. |
| HeartRate.RunMeasured | src/heartrate.c:50-51 | A measurement comes at the first sample that completes the `required_beats`-th pulse. Its value is `required_beats * 60000000` divided by the time since the first sample above the threshold, truncated into a `u_int8_t`. The duration is positive. |
| HeartRate.RunTimedOut | src/heartrate.c:37-44 | On timeout, the last timer reading is more than the timeout after the last pulse start, or after entry when there was none. When an LED is connected, the last level written to it is 0. |
| HeartRate.FlatSignalTimesOut | src/heartrate.c:38-44 | The timeout reference starts at the entry time (`src/heartrate.c:10`). So a signal that never reaches the threshold times out once a sample is more than the timeout after entry. The LED then receives only a single 0. |
| Sensors.Am2320Data.constructor | src/sensors.c:11 | `calloc` yields a record with both fields zero. |
| Sensors.GetAm2320Data | src/sensors.c:10-26 | The result is NULL exactly when allocation fails. Otherwise it is a fresh record holding the driver's reading. On a read error the record is still returned, with both fields 0. |
| Sensors.PhotoData.constructor | src/sensors.c:30 | `calloc` yields a record with all four fields zero. |
| Sensors.GetPhotoData | src/sensors.c:29-51 | The result is NULL exactly when allocation fails. Otherwise `raw` holds the ADC count. Voltage, resistance and lux are written only when calibration is available, and otherwise stay 0. |
| Sensors.TimeoutUs | src/sensors.c:78 | `timeout_s * 1000000` never overflows an `int`. It is `timeout_s` whole seconds in microseconds. |
| Sensors.Step | src/sensors.c:62-76 | The same edge transitions as the current revision. `start_time` is set to the sample's time by a rising edge while it is unset, and changes in no other case. There is no timeout reference. |
| Sensors.Init | src/sensors.c:55-57 | On entry no pulse is active, no beat is counted, and `start_time` is unset (0). Unlike the current revision there is no entry reading. |
| Sensors.TimeoutFires | src/sensors.c:78 | Before any pulse has started (`start_time` 0), the timeout check never fires, however late it is made. |
| Sensors.RunFrom | src/sensors.c:59-90 | The older loop from its guard, with k samples taken, as a function of the samples. It takes at least the k samples already taken and at most all of them. |
| Sensors.Run | src/sensors.c:53-92 | A whole call of the older revision. It takes at most all the samples. |
| Sensors.GetHeartRate | src/sensors.c:53-93 | The older polling loop returns the outcome of its `Run` and writes the same LED levels. |
| Sensors.FoldCharacterised | src/sensors.c:59-76 | After any prefix, the older loop's variables are the stream's crossings: the pulse phase, the completed pulses and the first time above the threshold. |
| Sensors.TimedOutAt | src/sensors.c:78 | The timeout check in the iteration that takes sample j - 1. It cannot fire while `start_time` is unset. |
| Sensors.TimedOutAtCharacterised | src/sensors.c:78 | The check fires after j samples exactly when one of them was above the threshold and the j-th comes more than `timeout_s` seconds after the first such sample. |
| Sensors.RunFollowsFold | src/sensors.c:59-90 | A call stops at the first exit point, and its end state is the fold of the samples it took. Every timeout check before the last sample taken passes. The beat count never exceeds `required_beats` and is below it before the last sample taken. A measurement has exactly `required_beats` pulses and passed its last check. Its value is the BPM formula over the time since the first pulse. A timeout fires at the last sample taken, only after a pulse has started, more than `timeout_s` s after the first one. A call that uses up the samples passed every check and counted fewer than `required_beats` pulses in all of them. The LED receives the edge writes plus a 0 on timeout. |
| Sensors.FlatSignalNeverTimesOut | src/sensors.c:78-83 | A signal that never reaches the threshold never times out and never touches the LED. The call keeps polling until the samples are used up. |
| Revisions.FoldsAgree | src/sensors.c:62-76 | Over any stream, the two revisions agree on the pulse phase, the beats and the start time. |
| Revisions.StartPrecedesTimeoutRef | src/heartrate.c:23-27 | In the current revision, once set, `start_time` is no later than `timeout_time`. Neither is later than the last timer reading. |
| Revisions.TimeoutPolicyOrder | src/sensors.c:78 | For the same timeout in µs, the older revision cannot time out before a pulse has started. After one has, it times out whenever the current revision does. |
| Revisions.MeasurementsAgree | src/sensors.c:89-90 | When both revisions measure, they take the same samples, return the same BPM and write the same LED levels. |
| Hx710b.Lines.SetClock | src/hx710b.c:12 | `gpio_set_level` on SCK appends the level to the SCK log and leaves DOUT alone. |
| Hx710b.Lines.GetData | src/hx710b.c:38 | `gpio_get_level` on DOUT returns the next level and consumes it, leaving SCK alone. |
| Hx710b.Lines.Pulse | src/hx710b.c:69-72 | One SCK pulse without a read: high, then low, with DOUT untouched. |
| Hx710b.Lines.ClockIn | src/hx710b.c:12-18 | One SCK pulse (high, then low) with DOUT sampled in between. It returns the next DOUT level and consumes it. |
| Hx710b.ShiftInSlow | src/hx710b.c:7-22 | Eight clock pulses, with the eight DOUT levels consumed. The result is `ByteValue` of those levels in the given bit order. |
| Hx710b.ByteValue | src/hx710b.c:14-17 | The byte made from eight levels lies in 0..255. |
| Hx710b.PackIsByteValue | src/hx710b.c:11-17 | ORing level i in at bit 7-i (MSBFIRST) or bit i (LSBFIRST), for i = 0..7, gives `ByteValue` of the eight levels. |
| Hx710b.BitPlacement | src/hx710b.c:14-17 | In the byte's binary digits, the i-th level read is bit 7-i with MSBFIRST and bit i with LSBFIRST. |
| Hx710b.ByteValueInjective | src/hx710b.c:7-21 | The byte determines the eight levels: different levels give different bytes, in either order. |
| Hx710b.Signed24 | src/hx710b.c:78-91 | A 24-bit pattern read as two's complement lies in -2^23..2^23-1. It is negative exactly when bit 23 is set. |
| Hx710b.Assemble | src/hx710b.c:79-91 | The filler-extended word cast to `long` is the 24-bit two's-complement value of hi:mid:lo. It is negative exactly when `data[2] >= 0x80`. |
| Hx710b.WordValue | src/hx710b.c:86-89 | ORing the four bytes in at bits 24, 16, 8 and 0 of an `unsigned long` gives their weighted sum. |
| Hx710b.HighBit | src/hx710b.c:79 | `data[2] & 0x80` is non-zero exactly when `data[2] >= 0x80`, which is the filler test. |
| Hx710b.GainPulses | src/hx710b.c:68-73 | After the data bits come `gain + 1` pulses: 2 for `HX710B_GAIN_128`, 3 for `HX710B_GAIN_32` and 4 for `HX710B_GAIN_64`. |
| Hx710b.FirstLow | src/hx710b.c:41-45 | The level at which the wait stops is low. |
| Hx710b.BeforeFirstLow | src/hx710b.c:41-45 | Every level polled before that one is high. |
| Hx710b.Decode | src/hx710b.c:78-91 | The value of 24 data bits lies in -2^23..2^23-1. |
| Hx710b.DecodeEncode | src/hx710b.c:62-91 | Every 24-bit value the sensor sends is read back unchanged. |
| Hx710b.EncodeDecode | src/hx710b.c:62-91 | Every 24-bit frame is the encoding of the value read from it. |
| Hx710b.BytesOfFrame | src/hx710b.c:63-65 | The three bytes shifted in MSB first make the frame's value, with the first byte received the most significant. |
| Hx710b.AssembleFrame | src/hx710b.c:86-91 | Assembling the three bytes read from a frame gives that frame's decoded value. |
| Hx710b.Readings | src/hx710b.c:96-97 | The values that `times` successive reads return: one per frame, each a 24-bit value. |
| Hx710b.AverageInRange | src/hx710b.c:94-100 | The sum of up to 255 readings fits a 32-bit `long`. Their truncated average is again a 24-bit value. |
| Hx710b.Hx710b.Init | src/hx710b.c:24-27 | Stores `sck`, `dout` and `gain` exactly as given. |
| Hx710b.Hx710b.IsReady | src/hx710b.c:37-39 | True exactly when the DOUT level read is low. It consumes one level and does not touch SCK. |
| Hx710b.Hx710b.WaitReady | src/hx710b.c:41-45 | Polls DOUT up to and including its first low level and stops there. It does not touch SCK. |
| Hx710b.Hx710b.ShiftInData | src/hx710b.c:63-65 | 24 pulses fill `data[2]`, then `data[1]`, then `data[0]`, each with the MSB-first value of the next eight DOUT levels. |
| Hx710b.Hx710b.ClockGain | src/hx710b.c:68-73 | Exactly `gain + 1` SCK pulses, with DOUT untouched. |
| Hx710b.Hx710b.ShiftInFrame | src/hx710b.c:50-91 | The result is the decoded value of the next 24 DOUT levels, which are consumed. SCK receives 24 + `gain + 1` pulses. |
| Hx710b.Hx710b.Read | src/hx710b.c:47-92 | The result is the decoded value of the frame after the first low DOUT level. Everything up to the frame's end is consumed. SCK receives 24 + `gain + 1` pulses. |
| Hx710b.Hx710b.ReadAverage | src/hx710b.c:94-101 | The result is the truncating C division of the sum of the next `times` readings by `times`, and is a 24-bit value. DOUT is consumed past those frames, and SCK receives one read's pulses per reading. |
| Hx710b.Hx710b.PowerDown | src/hx710b.c:109-112 | SCK is driven low, then high, and ends high. |
| Hx710b.Hx710b.PowerUp | src/hx710b.c:114-116 | SCK is driven low. |

## Left out

- I/O:
  - The ADC, the timer, GPIO reads and the I2C driver enter as input values; GPIO writes are logged as sequences of levels.
  - `ESP_ERROR_CHECK` aborting on a driver error is not modelled.
  - Logging is not modelled.
  - The GPIO direction and pull-up configuration in `hx710b_init` is not modelled.
- Delays, the scheduler and concurrency are not modelled: `vTaskDelay` and `ets_delay_us` are no-ops, and the critical section in `hx710b_read` has no observable effect in a single-threaded model.
- Float arithmetic is left out:
  - the photoresistor resistance and lux formula (`src/sensors.c:45-47`), whose results enter `Sensors.GetPhotoData` as given values;
  - `hx710b_read_hpa`;
  - the AM2320 float values, which are carried as reals without computation.
- Heap allocation failure is a parameter (`allocOk`) of the record readers.
- HeartRate.GetHeartRate: the model's sample sequence is finite, so a call whose samples run out before it measures or times out ends with `SamplesExhausted`. On the device such a call keeps polling until one of those exits comes, and for this revision one always does: it sees at most `required_beats` rising edges, and after the last one the timeout check (`src/heartrate.c:38`) fires while the timer advances. For `Sensors.GetHeartRate` the same outcome also stands for a call that never returns (see ## Findings).
- HeartRate.GetHeartRate: each loop iteration's timer readings are one value, and the samples' times are required to be positive and strictly increasing.
- HeartRate.GetHeartRate: the reading after the loop (`src/heartrate.c:50`) is taken to equal the last iteration's. On the device the 10 ms `vTaskDelay` (`src/heartrate.c:47`) runs before that reading, so the real duration is at least 10 ms longer and the device's BPM can be lower. For example, 7 beats over 6.00 s gives 70 in the model and 69 on the device (6.01 s). The same holds for `Sensors.GetHeartRate` (`src/sensors.c:86,89`).
- HeartRate.GetHeartRate: `required_beats * 60000000` is required to fit an `int`, i.e. up to 35 beats. Larger values overflow in C, and that behaviour is not modelled.
- Sensors.GetHeartRate: the same `int` overflow precondition on `required_beats * 60000000` (`Sensors.ValidConfig`) applies.
- Sensors.GetHeartRate: the older revision takes no timer reading on entry; it reads the timer in the loop and once after it (`src/sensors.c:89`). Its `entry` parameter stands only for the post-loop reading of a call that takes no samples.
- Sensors.GetAm2320Data: the AM2320 driver is not part of this model. On a failed read it is taken to write nothing, so both fields stay 0.
- Hx710b.Hx710b.WaitReady: requires DOUT to go low eventually. On the device the loop otherwise never returns. `delay_ms` only paces polling and is not modelled.
- Hx710b.Hx710b.ReadAverage: requires `times > 0`. With 0, the C code divides by zero.
- Hx710b.Hx710b.Init: the GPIO numbers are stored but select nothing. Each sensor's two lines are the `Lines` object passed to its methods.
- Hx710b.Assemble: works on the three bytes as integers. `WordValue` and `HighBit` prove that the C code's shifts, ORs and `& 0x80` test compute the same values.
- Hx710b.Hx710b.ShiftInFrame: relies on the three array elements being written before they are read, not on the `{ 0 }` initialiser.

## Findings

| source | as written | input that shows it | evidently intended | confidence | as-written member | corrected member |
|---|---|---|---|---|---|---|
| src/sensors.c:78-83 | The timeout is checked only when `start_time != 0`, and `start_time` is set only by a rising edge. So a signal that never reaches the threshold (sensor detached, no finger) never times out, and `get_heart_rate` never returns. | `required_beats` 7, threshold 3000, every reading 0, for as long as you like | Time out when no pulse arrives within the timeout, as the current revision's header (`include/heartrate.h:11`) puts it, "the timeout in milliseconds for detecting a single heart rate pulse"; the older revision's own header (`src/sensors.h:48`) only says "the timeout in seconds for the heart rate calculation". The current revision (`src/heartrate.c:10,38`) starts the reference at entry | not executed | Sensors.FlatSignalNeverTimesOut | HeartRate.FlatSignalTimesOut |
