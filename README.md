# GRTC and RAM retention test: a Dafny model

This project models the two pieces of logic in the nRF54L15 GRTC retention
demo.

- **The reset-survival test (`src/main.c`).** On every boot, `main()` reads
  the raw GRTC counter. A reading strictly above 1,000,000 µs means the
  counter kept running through the restart, and `main()` counts that boot in
  the retained record's `off_count`. While `boots < MAX_REBOOTS` (3), it arms
  a delayed reboot. The reboot handler increments `boots`, persists the record
  with `retained_update()`, and only then calls `sys_reboot`. Whether or not
  it armed, `main()` then runs a status loop that calls `retained_update()` on
  every iteration.
- **UTC time on top of the GRTC (`src/utc_time.c`).** The module keeps a
  signed offset and a `calibrated` flag. Calibration stores UTC − GRTC. A read
  returns the GRTC reading plus the offset, in µs, ms or s, using C's
  `uint64_t` modular arithmetic. The module also has a signed difference of
  two timestamps and a `"%llu.%03llu.%03llu s"` rendering of a µs value.

The Dafny modules, one file each:

- `CInt`: the C integer types. `uint64_t` arithmetic is reduced modulo 2^64
  (section 6.2.5p9 of ISO C11), and a `uint32_t` increment wraps.
- `DecimalText`: the text of `%llu` and `%03llu` (section 7.21.6.1 of ISO C11),
  with the value each digit string denotes. `Wrappers` holds `Option`.
- `UtcTime`: the conversions as pure functions. Class `UtcClock` holds the
  module state (`utc_offset`, `calibrated`) and has one method for each C
  function that reads or writes that state, except `utc_time_print`.
  `utc_time_diff_us` and `utc_time_format_us` use no module state; they are
  the functions `DiffUs` and `FormatUs`. `utc_time_print` only logs and has no member. Class
  `UtcTimeStruct` is `utc_time_t`. The GRTC reading is a parameter of every
  method that reads the counter.
- `ResetSurvival`: class `BootSession` models one boot. Its fields are the
  retained record, an event trace, and the armed and rebooted flags. Function
  `RunBoots` models a run of consecutive boots in which the record survives
  each reboot. Method `RunRebootTest` drives one `BootSession` per boot and is
  proved to compute `RunBoots`.

`retained_validate()` and `retained_update()` are defined in `retained.c`,
and the CRC in `retained.h`. retained.c and retained.h are not part of this
model. So:

- What `retained_validate()` returns is a parameter of `Boot`.
- The fields `retained_update()` recomputes (`uptime_latest`, `uptime_sum`,
  `crc`) arrive as a `StoreWrite` value. `retained_update()` keeps `boots` and
  `off_count`, and the model records each call as a `Persisted(record)` event.

The classification uses the strict `>` of src/main.c:160, so a reading of
exactly 1,000,000 is a fresh start. `main()` has no reinitialisation step;
what `retained_validate()` does to an invalid record happens in retained.c,
which is not part of this model.

## Model

| member | source | states |
|---|---|---|
| CInt.Wrap64 | src/utc_time.c:73 | the `uint64_t` result of a mathematical value: equal to it when in range, off by exactly 2^64 one step outside, always congruent modulo 2^64 |
| CInt.Inc32 | src/main.c:168 | `x++` on a `uint32_t`: one more, except that 2^32 − 1 wraps to 0; never the old value |
| CInt.ToUnsigned | src/utc_time.c:73 | the conversion of `utc_offset` to `uint64_t`: unchanged when non-negative, plus 2^64 when negative |
| DecimalText.Decimal | src/utc_time.c:157 | `%llu`: a non-empty digit string with no leading zero whose value is the number |
| DecimalText.Pad3 | src/utc_time.c:157 | `%03llu` of a value below 1000: exactly three digits whose value is the number |
| UtcTime.CalibrationOffset | src/utc_time.c:29 | the stored offset added to the GRTC reading gives the UTC timestamp back |
| UtcTime.UnixToMicros | src/utc_time.c:45 | `unix_timestamp * 1000000ULL`: exact when it fits, otherwise congruent modulo 2^64 |
| UtcTime.MicrosAt | src/utc_time.c:64-74 | uncalibrated: the raw reading; calibrated: congruent to reading + offset modulo 2^64, and equal to it when in range |
| UtcTime.Millis | src/utc_time.c:81-84 | whole milliseconds: `ms*1000 <= us < ms*1000 + 1000` |
| UtcTime.Seconds | src/utc_time.c:91-94 | whole seconds: `sec*1000000 <= us < sec*1000000 + 1000000` |
| UtcTime.DiffUs | src/utc_time.c:138-141 | `time1 + diff == time2` for operands below 2^63 |
| UtcTime.Split | src/utc_time.c:153-155 | `sec*1000000 + ms*1000 + us == input` with `ms < 1000` and `us < 1000` |
| UtcTime.MillisOfSeconds | src/utc_time.c:153-154 | the ms count is the seconds times 1000 plus `(us/1000) % 1000`, and dividing it by 1000 gives the seconds |
| UtcTime.SplitUnique | src/utc_time.c:153-155 | the split is the only decomposition with both sub-second parts below 1000 |
| UtcTime.SecondsFromMillis | src/utc_time.c:109-111 | the `seconds` field equals the `milliseconds` field divided by 1000 |
| UtcTime.FormatUs | src/utc_time.c:157 | the text is at least 11 characters: at least one seconds digit plus ".mmm.uuu s" |
| UtcTime.FormatLayout | src/utc_time.c:157 | the text is decimal seconds, '.', the 3-digit ms, '.', the 3-digit µs, " s", at exactly those positions |
| UtcTime.FormatRoundTrip | src/utc_time.c:151-158 | reading the formatted text back gives the microsecond value: formatting loses nothing |
| UtcTime.FormatInjective | src/utc_time.c:151-158 | two different µs values never format to the same text |
| UtcTime.ReadAfterCalibration | src/utc_time.c:64-73 | after calibrating to `u` at GRTC `g1`, reading at `g2` gives `u + (g2 − g1)` modulo 2^64 (exactly when no wrap); reading at `g1` gives `u` |
| UtcTime.DiffAntisymmetric | src/utc_time.c:138-141 | `diff(a, b) == -diff(b, a)` and `diff(t, t) == 0` |
| UtcTime.UtcClock.constructor | src/utc_time.c:18-19 | the module starts with offset 0 and not calibrated |
| UtcTime.UtcClock.Calibrate | src/utc_time.c:26-36 | sets `calibrated`, stores UTC − GRTC, and a read at the same GRTC value gives the UTC timestamp |
| UtcTime.UtcClock.CalibrateUnix | src/utc_time.c:43-47 | the same effect as `Calibrate` with `t * 1000000` reduced modulo 2^64 |
| UtcTime.UtcClock.IsCalibrated | src/utc_time.c:54-57 | returns the flag and changes nothing |
| UtcTime.UtcClock.GetUs | src/utc_time.c:64-74 | returns `MicrosAt` of the current state; the raw reading when uncalibrated |
| UtcTime.UtcClock.GetMs | src/utc_time.c:81-84 | the whole milliseconds of `GetUs` at the same reading |
| UtcTime.UtcClock.GetSec | src/utc_time.c:91-94 | the whole seconds of `GetUs` at the same reading |
| UtcTime.UtcClock.Get | src/utc_time.c:101-113 | fills all four fields from one reading, consistent with `Millis` and `Seconds`; a null pointer changes nothing |
| UtcTime.UtcClock.Format | src/utc_time.c:167-171 | the formatted current time, which parses back to the current µs value |
| ResetSurvival.CounterPersisted | src/main.c:160 | a reading of at most 1,000,000 µs, including exactly 1,000,000, is a fresh start; 1,000,001 is "counter persisted" |
| ResetSurvival.ClassificationMonotone | src/main.c:160 | a later reading than one classified "counter persisted" is classified so too |
| ResetSurvival.ShouldArm | src/main.c:178 | a boot arms exactly when `boots < MAX_REBOOTS`: arming means the increment does not wrap and one more boot stays within `MAX_REBOOTS`, and every `boots` below `MAX_REBOOTS` arms |
| ResetSurvival.HandlerEvents | src/main.c:121-130 | the handler's events start with the `boots` bump, end in the only reboot, and the last record write before it is the persist of the handler's record |
| ResetSurvival.Persist | src/main.c:122 | `retained_update()` keeps `boots` and `off_count` |
| ResetSurvival.BootRecord | src/main.c:160-172 | only `off_count` may change; it is incremented when the reading is above 1,000,000, and the record is unchanged at or below it |
| ResetSurvival.HandlerRecord | src/main.c:121-122 | `boots` is incremented (exactly +1 under the budget) and `off_count` is kept |
| ResetSurvival.BootEvents | src/main.c:139-202 | the boot starts with the validation verdict; it arms if and only if `boots < 3`, runs the completion branch otherwise, and its only record write is the `off_count` bump, which happens if and only if the counter persisted |
| ResetSurvival.HandlerMakesRebootSafe | src/main.c:121-130 | after the handler's events the trace ends in the reboot; the record was persisted before it; the last record write is that persist, of the final record |
| ResetSurvival.ValidationOnlyLogged | src/main.c:139-150 | everything a boot does after validation is the same whether the record was valid or not |
| ResetSurvival.BootSession.constructor | src/main.c:139 | a boot starts on the retained record with an empty trace, nothing armed and no reboot |
| ResetSurvival.BootSession.Boot | src/main.c:139-202 | the new record is `BootRecord` (`boots` unchanged); it arms if and only if `boots < MAX_REBOOTS`; the trace is `BootEvents`; the validation verdict affects only the trace |
| ResetSurvival.BootSession.RetainedUpdate | src/main.c:218 | writes the record back (counters kept) and appends a persist event of the new record |
| ResetSurvival.BootSession.RebootHandler | src/main.c:105-131 | the record becomes `HandlerRecord`; the trace gains bump, persist and reboot in that order; the reboot is safe |
| ResetSurvival.BootSession.StatusLoop | src/main.c:208-229 | each iteration only persists: `boots` and `off_count` are unchanged, the k-th new trace entry is the persist of the record with the k-th update's fields, and the record carries the last update's fields |
| ResetSurvival.CountPersisted | src/main.c:160 | the number of readings classified as "counter persisted" is at most the number of boots |
| ResetSurvival.RunBoots | src/main.c:121-202 | the run uses at most one boot per input; from `boots <= 3` it reboots at most `3 − boots` times; the final `boots` is the initial one plus the number of reboots |
| ResetSurvival.RunBootsReachesBudget | src/main.c:178-185 | from `boots <= 3` with enough boots, the run reboots exactly `3 − boots` times, ends with `boots == 3` and stops in the completion branch |
| ResetSurvival.RunBootsUnfinished | src/main.c:178-185 | with too few boots to use up the budget, every boot reboots and the test is not complete |
| ResetSurvival.ThreeCycleTest | src/main.c:23 | from `boots == 0`, exactly three reboots occur, the final `boots` is 3, and the fourth boot does not arm |
| ResetSurvival.RunBootsCountsPersisted | src/main.c:160-168 | the final `off_count` is the initial one plus the number of counter-persisted readings among the boots the run used |
| ResetSurvival.RunRebootTest | src/main.c:105-202 | running `BootSession` boot after boot, on the record each reboot persisted, computes exactly `RunBoots` |

## Left out

- `watch_dog()`, the `WDT_TEST` branch and watchdog feeding: driver installation and hardware I/O.
- The kernel's timing: `k_work_schedule`, `k_sleep`/`k_msleep`, the 10-second countdown loop of `main()`, and the sleeps of the status loop. Arming is the `RebootArmed` event.
- Concurrency between the work-queue handler and the main thread: the handler is one atomic step.
- The status loop is infinite. `StatusLoop` models any finite number of its iterations.
- `z_nrf_grtc_timer_read` and `sys_reboot`: readings are parameters, and the reboot is a terminal `Rebooted` event. The GRTC reading the handler takes before rebooting is only logged, so it is left out.
- `retained_validate`, `retained_update` and the CRC: their definitions are in retained.c and retained.h, which are not part of this model. The validation verdict and the recomputed fields are parameters. No checksum is modelled, and no reinitialisation on an invalid record.
- All logging, including the `double` conversions in log arguments, and `utc_time_print`, which only logs the fields `Get` fills in.
- `utc_time_enable_retention` and `utc_time_retention_active`: they are declared in utc_time.h but have no definition.
- `snprintf`'s buffer truncation and its return count: `FormatUs` and `UtcClock.Format` give the whole string that would be produced.
- src/utc_time_example.c: a demo driver with no logic of its own.
- UtcTime.CalibrationOffset: requires both operands below 2^63, because converting a larger `uint64_t` to `int64_t` is implementation-defined (section 6.3.1.3 of ISO C11).
- UtcTime.UtcClock.Calibrate: requires the timestamp and the reading below 2^63, for the same reason.
- UtcTime.UtcClock.CalibrateUnix: requires the wrapped microsecond value and the reading below 2^63, for the same reason.
- UtcTime.DiffUs: requires both timestamps below 2^63, for the same reason. On such operands the subtraction cannot overflow, which would be undefined (section 6.5p5 of ISO C11).
- ResetSurvival.HandlerRecord: says nothing about `uptime_latest`, `uptime_sum` or `crc`, because `retained_update()` recomputes them in retained.c.
