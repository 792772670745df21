# Sheep-monitor dashboard script, modelled in Dafny

The browser script of the sensor web server shows a rotating 3D cube driven
by gyroscope readings and live telemetry (temperature, acceleration, storage
use) pushed by the server over an event stream at `/events`, and offers two
buttons: reset a position and clear the stored data.

This project models the parts of that script that carry logic:

- `formatTime` (modules `Decimal` and `TimeFormat`): a duration in
  milliseconds shown as `HH:MM:SS`, with JavaScript's `String(n)` and
  `padStart(2, '0')` written out, and a reader of the result (split on
  `':'`, three decimal fields) as its inverse.
- The four event handlers `gyro_readings`, `temperature_reading`,
  `accelerometer_readings` and `storage_info` (module `Telemetry` as
  functions on a display-state value, module `Dashboard` as a class `Page`
  whose fields are the DOM read-outs and the cube's rotation, updated in
  place by one method per handler).
- The `clearData` decision (module `Actions`): confirmation, the `/clear`
  request, and which alert the response's status leads to; and the path
  `resetPosition` requests.

Angles, accelerations and percentages are JavaScript numbers; the model
takes them as `int`. The degree-to-radian conversion `deg * Math.PI / 180`
is kept symbolic: `ToRad(d)` is the value `Radians(d)`, standing for the
real angle, so the model records which reading drives which axis without
computing with floating point.

For the `/clear` request the script attaches only `xhr.onload`. A request
that fails at the network level fires `error`, not `load`, so no alert is
shown at all (`ClearData(true, None)` has no alert).

## Model

| member | source | states |
|---|---|---|
| `Decimal.NatToString` | Under_Development/TESTE_Web_Server_Ovinos_Wifi_Online/data/script.js:19-21 | `String(n)`: a non-empty digit string with no leading zero that denotes `n`; it starts with `'0'` only for `n == 0`; one character exactly when `n < 10`, at most two below 100 |
| `Decimal.IntToString` | Under_Development/TESTE_Web_Server_Ovinos_Wifi_Online/data/script.js:117 | `String(i)` for an integer: starts with `-` exactly when `i < 0`, and the rest denotes the absolute value with no leading zero |
| `Decimal.PadStart` | Under_Development/TESTE_Web_Server_Ovinos_Wifi_Online/data/script.js:19-21 | `padStart` with one fill character: length is the larger of the width and the input's, the input is the suffix and kept whole, everything before it is the fill |
| `Decimal.PadStart2` | Under_Development/TESTE_Web_Server_Ovinos_Wifi_Online/data/script.js:18-21 | `String(n).padStart(2,'0')` denotes `n`; below 10 it is `'0'` followed by the one digit, from 10 on it is `String(n)` unchanged |
| `TimeFormat.ClockOf` | Under_Development/TESTE_Web_Server_Ovinos_Wifi_Online/data/script.js:13-16 | the hours/minutes/seconds split of a whole-second count has minutes and seconds below 60 |
| `TimeFormat.ClockOfSplits` | Under_Development/TESTE_Web_Server_Ovinos_Wifi_Online/data/script.js:14-16 | the hours/minutes/seconds split has minutes and seconds below 60 and adds back up to the total seconds |
| `TimeFormat.ClockOfTotal` | Under_Development/TESTE_Web_Server_Ovinos_Wifi_Online/data/script.js:14-16 | any split with minutes and seconds below 60 is the one the code computes from its total, so the split is unique |
| `TimeFormat.FormatTime` | Under_Development/TESTE_Web_Server_Ovinos_Wifi_Online/data/script.js:12-24 | the output is at least 8 characters with `':'` sixth and third from its end (its full shape and inverse are the lemmas below) |
| `TimeFormat.FormatTimeShape` | Under_Development/TESTE_Web_Server_Ovinos_Wifi_Online/data/script.js:12-24 | the output is at least 8 characters: digits, `':'`, two digits, `':'`, two digits |
| `TimeFormat.FormatTimeSeparators` | Under_Development/TESTE_Web_Server_Ovinos_Wifi_Online/data/script.js:23 | the output holds exactly two `':'`, the sixth and third characters from its end |
| `TimeFormat.FormatTimeRoundTrip` | Under_Development/TESTE_Web_Server_Ovinos_Wifi_Online/data/script.js:13-23 | reading the output back as h:m:s succeeds, gives `m < 60`, `s < 60` and `h*3600 + m*60 + s == ms / 1000` |
| `TimeFormat.FormatTimeIgnoresMilliseconds` | Under_Development/TESTE_Web_Server_Ovinos_Wifi_Online/data/script.js:13 | the sub-second remainder has no effect: `FormatTime(ms) == FormatTime(1000 * (ms / 1000))` |
| `TimeFormat.FormatTimeEqualIff` | Under_Development/TESTE_Web_Server_Ovinos_Wifi_Online/data/script.js:13-23 | two durations give the same text if and only if they have the same whole seconds |
| `TimeFormat.FormatTimeHoursField` | Under_Development/TESTE_Web_Server_Ovinos_Wifi_Online/data/script.js:14-19 | the hours field is `'0'` and one digit below ten hours, otherwise the full spelling of the hour count, never cut to two digits |
| `TimeFormat.FormatTimeBelowOneSecond` | Under_Development/TESTE_Web_Server_Ovinos_Wifi_Online/data/script.js:13 | every duration under 1000 ms shows as `00:00:00` |
| `TimeFormat.FormatTimeOneSecond` | Under_Development/TESTE_Web_Server_Ovinos_Wifi_Online/data/script.js:13-23 | every duration from 1000 to 1999 ms shows as `00:00:01` |
| `TimeFormat.FormatTimeOneOfEach` | Under_Development/TESTE_Web_Server_Ovinos_Wifi_Online/data/script.js:12-24 | 3661000 ms shows as `01:01:01` |
| `TimeFormat.FormatTimeHundredHours` | Under_Development/TESTE_Web_Server_Ovinos_Wifi_Online/data/script.js:14-19 | 360000000 ms shows as `100:00:00`: three hour digits kept |
| `Telemetry.EventName` | Under_Development/TESTE_Web_Server_Ovinos_Wifi_Online/data/script.js:79-113 | every registered handler name is non-empty and differs from the `open` and `error` names the stream logs |
| `Telemetry.EventNamesDistinct` | Under_Development/TESTE_Web_Server_Ovinos_Wifi_Online/data/script.js:79-113 | the four handlers are registered under four different names |
| `Telemetry.ToRad` | Under_Development/TESTE_Web_Server_Ovinos_Wifi_Online/data/script.js:89-91 | the conversion records the degree value it converts |
| `Telemetry.ToRadInjective` | Under_Development/TESTE_Web_Server_Ovinos_Wifi_Online/data/script.js:89-91 | two readings give the same rotation exactly when they are the same number of degrees |
| `Telemetry.KindOfEvent` | Under_Development/TESTE_Web_Server_Ovinos_Wifi_Online/data/script.js:79-118 | an event name reaches a display handler exactly when it is one of the four registered names, and then the handler registered under that name |
| `Telemetry.Apply` | Under_Development/TESTE_Web_Server_Ovinos_Wifi_Online/data/script.js:79-118 | a handler makes the display show its message (gyro: the raw degrees, rotation x from gyroY, z from gyroX, y from gyroZ; temperature: the event string assigned to `innerHTML`; the three accelerations; timer `FormatTime(elapsed)`, percent, the width string `percent + "%"` assigned unclamped) and leaves every other kind's fields unchanged |
| `Telemetry.ApplyCharacterized` | Under_Development/TESTE_Web_Server_Ovinos_Wifi_Online/data/script.js:79-118 | any state that shows the message and keeps the other kinds' fields is exactly the handler's result |
| `Telemetry.ApplyIdempotent` | Under_Development/TESTE_Web_Server_Ovinos_Wifi_Online/data/script.js:79-118 | handling the same message twice gives the same display as handling it once |
| `Telemetry.ApplyLastWriteWins` | Under_Development/TESTE_Web_Server_Ovinos_Wifi_Online/data/script.js:79-118 | after two messages of one kind the display is as if only the second had arrived |
| `Telemetry.ApplyCommutes` | Under_Development/TESTE_Web_Server_Ovinos_Wifi_Online/data/script.js:79-118 | messages of different kinds write disjoint fields, so their order does not change the display |
| `Telemetry.ApplyAllShowsLatest` | Under_Development/TESTE_Web_Server_Ovinos_Wifi_Online/data/script.js:79-118 | after any stream of messages, each kind's fields show the latest message of that kind, or are untouched when none of that kind arrived |
| `Dashboard.Page.constructor` | Under_Development/TESTE_Web_Server_Ovinos_Wifi_Online/data/script.js:55-58 | a fresh page has the cube unrotated and empty or zero read-outs |
| `Dashboard.Page.OnGyroReadings` | Under_Development/TESTE_Web_Server_Ovinos_Wifi_Online/data/script.js:79-100 | the three read-outs take the raw degrees; rotation x, z, y take ToRad of gyroY, gyroX, gyroZ; the new page is `Apply` of the old one, so nothing else changes |
| `Dashboard.Page.OnTemperatureReading` | Under_Development/TESTE_Web_Server_Ovinos_Wifi_Online/data/script.js:102-104 | the temperature read-out holds the event string as assigned to `innerHTML`, nothing else changes |
| `Dashboard.Page.OnAccelerometerReadings` | Under_Development/TESTE_Web_Server_Ovinos_Wifi_Online/data/script.js:106-111 | the three acceleration read-outs take the payload's values, nothing else changes |
| `Dashboard.Page.OnStorageInfo` | Under_Development/TESTE_Web_Server_Ovinos_Wifi_Online/data/script.js:113-118 | the timer takes `FormatTime(elapsed)`, the percentage read-out the raw percent, the string assigned as bar width the percent followed by `%`, nothing else changes |
| `Dashboard.Page.Receive` | Under_Development/TESTE_Web_Server_Ovinos_Wifi_Online/data/script.js:79-118 | a delivered message updates the page exactly as `Apply` describes |
| `Actions.ResetPath` | Under_Development/TESTE_Web_Server_Ovinos_Wifi_Online/data/script.js:121-125 | the reset request goes to `/` followed by the clicked element's id |
| `Actions.ClearData` | Under_Development/TESTE_Web_Server_Ovinos_Wifi_Online/data/script.js:127-140 | a request to `/clear` is sent exactly when confirmed; the success alert exactly when confirmed and the status is 200; the failure alert exactly when confirmed and another status arrives; no alert when declined or when no response loads |
| `Actions.AlertText` | Under_Development/TESTE_Web_Server_Ovinos_Wifi_Online/data/script.js:133-135 | each of the two alert texts belongs to exactly one outcome: the success text to success, the error text to failure |
| `Actions.AlertOnlyAfterRequest` | Under_Development/TESTE_Web_Server_Ovinos_Wifi_Online/data/script.js:128-137 | no alert is ever shown without the request having been sent |

## Left out

- The three.js scene, camera, renderer, box geometry and face materials (script.js:35-59): a rendering library with no statable logic; `renderer.render` after a gyro update is not modelled.
- `onWindowResize` and `parentWidth`/`parentHeight` (script.js:27-33, 61-67): floating-point aspect ratio over DOM measurements and library calls.
- The degree-to-radian arithmetic (script.js:89-91): floating point with `Math.PI`; `ToRad` records the conversion symbolically.
- `EventSource` creation, the `open`/`error` console logging and the browser's reconnection (script.js:70-77): network I/O; only the routing of event names to handlers is modelled (`KindOfEvent`).
- `JSON.parse` of the payloads (script.js:80, 107, 114): a foreign call; handlers take decoded records, and a malformed payload is not modelled.
- The `XMLHttpRequest` sends (script.js:122-124, 129-131, 138): network I/O; the model states which request would be sent and lets the response status be a parameter.
- The browser's `confirm` and `alert` dialogs: the user's answer is a parameter of `ClearData`, the alert is returned as a value with its text given by `AlertText`.
- Negative or fractional millisecond inputs to `formatTime`: JavaScript's `%` on negatives gives negative fields; `FormatTime` takes a `nat`.
- Dashboard.Page.OnGyroReadings, Dashboard.Page.OnAccelerometerReadings, Dashboard.Page.OnStorageInfo: the gyro, acceleration and percentage read-outs (script.js:82-84, 108-110, 116) hold the numbers themselves, not their text; JavaScript's number-to-string conversion for non-integers is not modelled (for integers it is `IntToString`, used for the bar width).
- Telemetry.Apply, Dashboard.Page.OnStorageInfo: `progressBarWidth` is the string assigned to `style.width` at script.js:117; the `style` setter ignores a value CSS rejects, such as a negative percentage, and then the bar keeps its previous width. The model records the assigned string, so for the bar as drawn `ApplyLastWriteWins` holds only for non-negative percentages.
- Telemetry.Apply, Dashboard.Page.OnTemperatureReading: `innerHTML` reads the assigned text as HTML; the model keeps the assigned string, so markup and character references in `temperature_reading` data (script.js:103) are not modelled.
- Dashboard.Page.constructor: the read-outs' initial text comes from the HTML page, which is not part of this model; the constructor starts them empty or zero.
- TimeFormat.FormatTime: `ms` is an unbounded `nat`, standing only for JavaScript's safe integers; the division at script.js:13 is exact only below 2^53 ms, and larger durations are not modelled.
- Decimal.NatToString, Decimal.IntToString: model `String(n)` only for safe integers (magnitude below 2^53); beyond that JavaScript numbers are doubles and `String` prints the shortest spelling that reads back to the same double (`String(2**64)` is `"18446744073709552000"`, and exponent notation from 1e21), which is not modelled; the percent at script.js:117 goes through `IntToString`.
- Telemetry.Apply: the storage percentage is taken as an `int`; the text JavaScript gives a fractional percent in `obj.percent + '%'` (script.js:117) is not modelled.
- Dashboard.Page.OnStorageInfo: as for `Telemetry.Apply`, the percent is an `int` and the bar width of a fractional percent is not modelled.
