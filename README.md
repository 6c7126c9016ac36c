# MXChip IoT DevKit telemetry and device-twin logic in Dafny

This project models the decision logic of `Device/utility.cpp` of the MXChip IoT
DevKit demo firmware, with the constants of `Device/config.h`:

- the **device-twin interval updater**: the module-level `interval` (the send
  cadence in milliseconds, initially `INTERVAL` = 5000), its getter
  `getInterval`, and `parseTwinMessage`, which takes a twin update of kind
  COMPLETE or PARTIAL, reads a numeric `interval` from `desired.interval` or from
  the root respectively, and stores it (truncated to an integer) only when it is
  strictly greater than 500;
- the **telemetry builder** `readMessage`: it records thirteen numbers (message
  id, temperature, humidity, pressure and three axis triples) into a JSON object
  in a fixed key order, evaluates the temperature alert (`> 30`) and the motion
  alert (some accelerometer axis with `|a| > 100`), mirrors the readings into the
  module-level statics and the two out-parameters, and prints the pretty-printed
  record into the caller's payload buffer with
  `snprintf(payload, MESSAGE_MAX_LEN, "%s", ...)`.

Modules, one per file:

- `Config` (`config.dfy`): the constants of `Device/config.h` and the literal floor 500.
- `Json` (`json.dfy`): a parsed JSON value (RFC 8259) and the object accessors
  the firmware calls: get a member, get a number (0 when missing or not a
  number), get an object (none when missing or not an object), set a number
  (overwrite in place, or append). The JSON library itself is not part of this
  model; these functions follow its documented behaviour.
- `Twin` (`twin.dfy`): the updater. `TwinState` is a class with the `interval`
  field; a ghost `history` records the updates handled so far, and `Valid()`
  ties `interval` to `IntervalAfter(history)`, the replay of those updates from
  5000 through the pure step `NextInterval`.
- `Payload` (`payload.dfy`): `snprintf` with `%s` into a buffer of 512
  characters (section 7.19.6.5 of ISO C99): the argument is read up to its first
  NUL, at most 511 characters are stored, and a NUL follows them.
- `Telemetry` (`telemetry.dfy`): the alerts, the record and `readMessage` as a
  method of `TelemetryState`, the class holding the `temperature`, `humidity` and
  `pressure` mirrors and the `static bool alerts[2]` array that is handed back.

The sensor reads are inputs (`Readings`); parsing a twin message and
pretty-printing the record are function parameters (`parse`, `serialize`) of the
two methods.

The reachable invariant of the interval is `interval >= 500`, not `> 500`: a
candidate such as 500.5 passes the `val > 500` test and `(int)val` truncates it
to exactly 500 (`Twin.FractionalCandidateReachesFloor`). The model follows the code.

## Model

| member | source | states |
|---|---|---|
| `Twin.TwinState.constructor` | Device/utility.cpp:26 | before any update the interval is `INTERVAL` (5000) and no update has been handled |
| `Twin.TwinState.GetInterval` | Device/utility.cpp:35-38 | returns the current interval without changing anything, and that value is at least 500 |
| `Twin.TwinState.ParseTwinMessage` | Device/utility.cpp:56-90 | the new interval is `NextInterval` of the old one and the parsed message; it is either unchanged or at least 500; the replay invariant is kept |
| `Twin.TruncateTowardZero` | Device/utility.cpp:86 | `(int)val` drops the fraction toward zero: for `x >= 0`, `r <= x < r + 1`; for `x < 0`, `r - 1 < x <= r` |
| `Twin.Candidate` | Device/utility.cpp:71-83 | for a COMPLETE update without a `desired` object the candidate is 0, and with one it is that object's `interval` as the number getter reads it; a PARTIAL update's candidate is the number stored at the root `interval`; a non-zero candidate is always the number stored at `desired.interval` (COMPLETE) or at the root `interval` (PARTIAL) |
| `Twin.NextInterval` | Device/utility.cpp:59-88 | one update either leaves the interval unchanged or sets it to at least 500; a parse failure or a non-object root leaves it unchanged |
| `Twin.ReachableIntervalAtLeastFloor` | Device/utility.cpp:84-87 | after any sequence of updates from 5000 the interval is at least 500 |
| `Twin.NoAcceptedUpdateKeepsDefault` | Device/utility.cpp:84-87 | while no update passes the `> 500` test, the interval stays 5000 |
| `Twin.IntervalComesFromAcceptedUpdate` | Device/utility.cpp:84-87 | the interval is always 5000 or the truncated candidate of some accepted update: nothing else is ever written |
| `Twin.MalformedUpdateChangesNothing` | Device/utility.cpp:59-68 | an unparseable message or a non-object root changes nothing, for either update kind |
| `Twin.CompleteUpdateReadsDesired` | Device/utility.cpp:72-79 | a COMPLETE update with `desired.interval = v > 500` sets the interval to the truncation of `v` |
| `Twin.CompleteUpdateWithoutDesiredObject` | Device/utility.cpp:74-78 | a COMPLETE update whose `desired` is missing or not an object changes nothing |
| `Twin.CompleteUpdateIgnoresRootInterval` | Device/utility.cpp:72-79 | setting a root-level `interval` to any number never changes the outcome of a COMPLETE update |
| `Twin.PartialUpdateReadsRoot` | Device/utility.cpp:80-83 | a PARTIAL update with root `interval = v > 500` sets the interval to the truncation of `v` |
| `Twin.PartialUpdateWithoutNumber` | Device/utility.cpp:80-83 | a PARTIAL update whose root `interval` is missing or not a number changes nothing |
| `Twin.SmallCandidateChangesNothing` | Device/utility.cpp:84-88 | a candidate of at most 500 (0 and negatives included) changes nothing |
| `Twin.UpdateExamples` | Device/utility.cpp:56-90 | `{"interval":1000}` partial gives 1000; `{"desired":{"interval":700}}` complete gives 700; a complete update with only a root interval, and a partial one with exactly 500, change nothing |
| `Twin.FractionalCandidateReachesFloor` | Device/utility.cpp:84-86 | a partial update with interval 500.5 sets the interval to exactly 500 |
| `Json.FindMember` | Device/utility.cpp:82 | a member lookup finds a value exactly when the name is among the object's keys |
| `Json.FindMemberFirst` | Device/utility.cpp:82 | the value found is that of the first member carrying the name |
| `Json.GetNumber` | Device/utility.cpp:77 | a number stored under the name is returned as it is; a non-zero result always is such a number, so anything else reads as 0 |
| `Json.GetObject` | Device/utility.cpp:74 | an object is returned exactly when the member exists and holds an object, and it is that object's members |
| `Json.SetNumber` | Device/utility.cpp:176 | setting a new name appends it at the end; setting an existing name keeps the key order; the name then finds the number |
| `Json.SetNumberFrame` | Device/utility.cpp:176 | setting one name leaves what every other name finds as it was |
| `Json.SetNumbersAppends` | Device/utility.cpp:176-222 | setting fields with distinct new names appends them in order after the existing members |
| `Json.FindNumberMember` | Device/utility.cpp:176-222 | in an object built from fields with distinct names, each name finds its own number |
| `Telemetry.RecordKeysDistinct` | Device/utility.cpp:176-222 | the thirteen record keys are pairwise distinct, so each set appends a new member |
| `Telemetry.TelemetryRecord` | Device/utility.cpp:170-222 | setting the thirteen numbers on a fresh object yields exactly those members, in the order they are set |
| `Telemetry.TelemetryRecordLayout` | Device/utility.cpp:176-222 | the record's keys are exactly messageId, temperature, humidity, pressure, magnetometerX/Y/Z, accelerometerX/Y/Z, gyroscopeX/Y/Z in that order, and each key finds its own reading |
| `Telemetry.Alerts` | Device/utility.cpp:225-232 | the temperature alert holds iff the temperature is above 30; the motion alert holds iff some accelerometer component has magnitude above 100 |
| `Telemetry.AlertBoundaries` | Device/utility.cpp:225-232 | exactly 30 degrees raises no temperature alert; all axes within ±100 raise no motion alert; an axis at -101 does |
| `Telemetry.AlertsIgnoreOtherReadings` | Device/utility.cpp:229-232 | neither alert depends on humidity, pressure, magnetometer or gyroscope, whatever their values |
| `Telemetry.AlertExamples` | Device/utility.cpp:225-241 | 35 degrees with accelerometer (10,10,10) gives `{true, false}`; 20 degrees with (150,0,0) gives `{false, true}`; a still board with a gyroscope X past `GYROMETER_ALERT` gives `{false, false}` |
| `Telemetry.TelemetryState.constructor` | Device/utility.cpp:27-29 | the statics start zeroed and the alert array holds two `false` |
| `Telemetry.TelemetryState.ReadMessage` | Device/utility.cpp:168-249 | the returned array is the static alert array holding both alerts; the out-parameters and the statics hold the raw readings; the payload holds the bounded print of the serialised record, then a NUL, and nothing after it changes |
| `Payload.CStr` | Device/utility.cpp:245 | the string `%s` reads is the longest NUL-free prefix of its argument |
| `Payload.PayloadText` | Device/utility.cpp:245 | the stored text is a NUL-free prefix of the serialisation of length `min(len, 511)` |
| `Payload.PayloadWholeWhenFits` | Device/utility.cpp:245 | a NUL-free serialisation shorter than 512 characters is stored whole |
| `Payload.PayloadTruncatedWhenLong` | Device/utility.cpp:245 | a NUL-free serialisation of 512 or more characters is cut to its first 511 |
| `Payload.PrintBounded` | Device/utility.cpp:245 | the buffer holds the payload text followed by a NUL, the rest is unchanged, and the result is the length the whole string needed |

## Left out

- Sensor initialisation and the six sensor reads (`Device/utility.cpp:92-166`): I2C hardware drivers; their results are the `Readings` input.
- `SensorInit`'s re-initialisation of the statics (`Device/utility.cpp:110-119`: `humidity = -1`, `temperature = -1000`, `pressure = 0`, and the axis caches pointed at local arrays): `TelemetryState.constructor` starts the mirrors at 0 instead; `ReadMessage` writes each mirror before anything reads it, so no result depends on these start values.
- `blinkLED` and `blinkSendConfirmation`: LED output and delays only.
- `__sys_setup`: board and web-server bring-up.
- The JSON library: parsing is the `parse` parameter of `ParseTwinMessage` and pretty-printing the `serialize` parameter of `ReadMessage`; freeing documents and strings, and the log calls, have no modelled effect.
- The "save old values" address assignments (`Device/utility.cpp:235-237`) and the sensitivity reads into `data`: they alias static arrays that nothing reads.
- IEEE float behaviour: readings and JSON numbers are `real`, so rounding, NaN and infinities are not modelled; C `int` readings are unbounded integers, so `abs(INT_MIN)` is not modelled.
- Twin.TwinState.ParseTwinMessage: does not model that `(int)val` is undefined in C for candidates of 2^31 or more; the model truncates without bound.
- Telemetry.TelemetryState.ReadMessage: the out-parameters are returned values rather than writes through the caller's `float *` arguments, so aliasing between them and the payload is not modelled.
- Payload.PrintBounded: the payload bound is counted in characters; C counts bytes, which is the same for the ASCII text the record serialises to.
