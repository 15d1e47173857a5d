# TSE-X402 helpers in Dafny

TSE-X402 is an Arduino client library for the X.402 pay-for-access protocol.
A device polls a backend. The backend answers with a small JSON object saying:
- whether access is granted;
- how many seconds of the paid session remain;
- which currency paid for it (TSE on Solana or USDC on Base).

The library's logic is a handful of allocation-free helpers. This project models them and proves their properties:

- **Response parser** (`ResponseParser`). `TSE_ParseAccessGranted`, `TSE_ParseRemainingSeconds` and `TSE_ParseCurrency` look for fixed byte patterns with `strstr` and read a number with `atoi`. A missing or malformed field gives a default value.
- **Time formatter** (`TimeFormat`). `TSE_FormatTime` splits a count of seconds into hours, minutes and seconds with `/` and `%`. It prints `"{h}h {m}m {s}s"`, `"{m}m {s}s"` or `"{s}s"` into the caller's buffer and returns that buffer. It is modelled twice:
  - as a pure function giving the text;
  - as a method that writes the text and its NUL into an `array<char>` and returns the same array.
- **Vocabulary** (`Vocabulary`):
  - the enumerations `TSE_DeviceType`, `TSE_SessionStatus` and `TSE_Currency`, with their C enumerator values;
  - the label functions `TSE_GetDeviceTypeString` and `TSE_GetCurrencyString`;
  - the macros `TSE_SECONDS_TO_MS` and `TSE_MINUTES_TO_MS`;
  - the default configuration constants;
  - the shapes of `TSE_Config` and `TSE_Session`.
- **C library pieces** (`CString`, `NumericText`):
  - `strstr` is the first index at which a pattern occurs, or `None` for the null pointer;
  - a C string is the sequence of characters before its NUL;
  - `atoi` skips white space, reads an optional sign and then the longest run of digits (0 when there are none);
  - `%d` of a non-negative value is its decimal text.

The targets named by the library (MKR WiFi 1010, ESP32, Giga R1) are 32-bit. So `int` is 32 bits, and `unsigned long` (`Vocabulary.ULong`) is 32 bits with arithmetic modulo 2^32.

To show that a formatter or parser is right, each one has a partner:
- `FormatTime` has a reader, `ReadDuration`, that turns the text back into the seconds.
- `ParseRemainingSeconds` is read back against `Decimal`, the `%d` rendering.
- `Atoi` is checked against `Decimal` in the same way.
- `FindFirst` is characterised by what occurs before and at the index it returns.

## Model

| member | source | states |
|---|---|---|
| CString.FindFirst | src/TSE_X402.cpp:29 | `strstr`: when it finds an index, the pattern occurs there and at no earlier index; when it finds none, the pattern occurs nowhere |
| CString.FindFirstAt | src/TSE_X402.cpp:29 | an occurrence with no earlier occurrence is exactly the one `strstr` returns |
| CString.Contains | src/TSE_X402.cpp:40 | `strstr(...) != nullptr` holds iff the pattern occurs at some index |
| CString.ContainsInContext | src/TSE_X402.cpp:40 | a pattern found in a text is still found when any text is added before and after it |
| CString.CStringOf | src/TSE_X402.cpp:17 | the C string held in a buffer is the buffer's prefix before the first NUL; it holds no NUL, and a NUL follows it when it is shorter than the buffer |
| CString.CStringOfTerminated | src/TSE_X402.cpp:17 | a NUL-free text followed by a NUL reads back as that text, whatever follows the NUL |
| NumericText.IsSpace | src/TSE_X402.cpp:33 | the white space `atoi` skips is exactly the C-locale `isspace` set: space, tab, newline, vertical tab, form feed and carriage return; its meaning is pinned down by `SpaceRunSpaces` and `AtoiSkipsSpace` |
| NumericText.SpaceRun | src/TSE_X402.cpp:33 | the white space `atoi` skips is followed by a non-space or by the end of the text |
| NumericText.SpaceRunSpaces | src/TSE_X402.cpp:33 | every character of the run `atoi` skips is white space |
| NumericText.DigitRunDigits | src/TSE_X402.cpp:33 | the digit run `atoi` reads is made of digits and is followed by a non-digit or by the end of the text |
| NumericText.DigitRunOf | src/TSE_X402.cpp:33 | the digit run of digits followed by a non-digit is exactly those digits |
| NumericText.SpaceRunSkips | src/TSE_X402.cpp:33 | leading white space adds its length to the run `atoi` skips |
| NumericText.Atoi | src/TSE_X402.cpp:33 | C `atoi`, specified by the lemmas below: white space, an optional sign and digits read as the signed number (`AtoiReads`, `AtoiOfDecimal`); no digits read as 0 (`AtoiNoDigits`, `AtoiStopsAtJunk`) |
| NumericText.AtoiSkipsSpace | src/TSE_X402.cpp:33 | leading white space does not change what `atoi` returns, whatever follows it |
| NumericText.AtoiReadsNumber | src/TSE_X402.cpp:33 | an optional sign and a run of digits ended by a non-digit read as that number, negated after `-` |
| NumericText.AtoiReads | src/TSE_X402.cpp:33 | white space, an optional sign and a run of digits read as that signed number, whatever follows it |
| NumericText.AtoiNoDigits | src/TSE_X402.cpp:33 | a sign followed by no digit (the end, or any non-digit), after any white space, reads as 0 |
| NumericText.AtoiStopsAtJunk | src/TSE_X402.cpp:33 | text that starts with no space, sign or digit reads as 0 |
| NumericText.Decimal | src/TSE_X402.cpp:17-21 | `%d` of a non-negative value is never empty; `DecimalDigits`, `DecimalRoundTrip` and `AtoiOfDecimal` state that it is the value's digits with no leading zero and reads back as the value |
| NumericText.DigitChar | src/TSE_X402.cpp:17 | the `%d` digit of a value below ten is a digit character of that value |
| NumericText.DecimalDigits | src/TSE_X402.cpp:17 | `%d` of a non-negative value is all digits with no leading zero except for 0 itself |
| NumericText.DecimalRoundTrip | src/TSE_X402.cpp:17 | the digits `%d` prints denote the number printed |
| NumericText.AtoiOfDecimal | src/TSE_X402.cpp:33 | `atoi` reads back the number `%d` printed when a non-digit or the end follows it |
| NumericText.DecimalLengthAtMost | src/TSE_X402.cpp:17 | a number below 10^k prints in at most k digits |
| NumericText.DecimalLengthAbove | src/TSE_X402.cpp:17 | a number of at least 10^k prints in more than k digits |
| Vocabulary.DeviceTypeValue | src/TSE_X402.h:26-33 | the six device types take the enumerator values 0 to 5 |
| Vocabulary.DeviceTypeOf | src/TSE_X402.h:26-33 | exactly the values 0 to 5 denote a device type |
| Vocabulary.DeviceTypeValueRoundTrip | src/TSE_X402.h:26-33 | device types and values 0 to 5 correspond one to one |
| Vocabulary.DeviceTypeString | src/TSE_X402.cpp:57-66 | every value has a non-empty label; the label is "Generic Device" exactly when the value is none of the five named types |
| Vocabulary.DeviceTypeLabelsDistinct | src/TSE_X402.cpp:57-66 | the five named device types have five different labels, none of them "Generic Device" |
| Vocabulary.SessionStatusValue | src/TSE_X402.h:36-42 | five statuses take the values 0 to 4, and "no session" is the zero value |
| Vocabulary.SessionStatusOf | src/TSE_X402.h:36-42 | exactly the values 0 to 4 denote a status |
| Vocabulary.SessionStatusValueRoundTrip | src/TSE_X402.h:36-42 | statuses and values 0 to 4 correspond one to one |
| Vocabulary.CurrencyValue | src/TSE_X402.h:45-49 | three currencies take the values 0 to 2, and "unknown" is the zero value |
| Vocabulary.CurrencyOf | src/TSE_X402.h:45-49 | exactly the values 0 to 2 denote a currency |
| Vocabulary.CurrencyValueRoundTrip | src/TSE_X402.h:45-49 | currencies and values 0 to 2 correspond one to one |
| Vocabulary.CurrencyString | src/TSE_X402.cpp:68-74 | TSE gives "TSE (Solana)", USDC gives "USDC (Base)", every other value gives "Unknown"; no label is empty |
| Vocabulary.SecondsToMs | src/TSE_X402.h:90 | `s * 1000UL` is exactly `s * 1000` when that does not overflow 32 bits |
| Vocabulary.MinutesToMs | src/TSE_X402.h:89 | `m * 60UL * 1000UL` is exactly `m * 60000` when that does not overflow 32 bits |
| Vocabulary.ModOfProduct | src/TSE_X402.h:89 | wrapping an intermediate product modulo 2^32 does not change the final product modulo 2^32 |
| Vocabulary.MinutesToMsIsSixtySeconds | src/TSE_X402.h:89-90 | for every input, wrap-around included, minutes to ms is `m * 60000` modulo 2^32 and equals seconds to ms of `60 * m` |
| Vocabulary.DefaultConfig | src/TSE_X402.h:77-80 | a configuration from the defaults uses host "tse-x-backend.onrender.com", port 443 and positive poll intervals of 1500 ms idle and 3000 ms active, and keeps the caller's device id, secret and type |
| TimeFormat.Split | src/TSE_X402.cpp:12-14 | minutes and seconds are below 60, and hours * 3600 + minutes * 60 + seconds is the input |
| TimeFormat.SplitUnique | src/TSE_X402.cpp:12-14 | any decomposition with minutes and seconds below 60 is the one `/` and `%` compute |
| TimeFormat.SplitFitsInt | src/TSE_X402.cpp:12 | for every 32-bit input the hours fit a 32-bit `int` (at most 1,193,046) |
| TimeFormat.SegmentLetter | src/TSE_X402.cpp:17-21 | the only non-digit in a `%d` conversion followed by its unit letter is that letter |
| TimeFormat.Render | src/TSE_X402.cpp:16-22 | the three `sprintf` formats chosen by hours and minutes; `RenderShape` states which segments each holds and `RenderRoundTrip` that every rendering reads back as its total |
| TimeFormat.RenderLetter | src/TSE_X402.cpp:16-22 | a rendering holds 'h' only with hours, 'm' only with hours or minutes, and always 's' |
| TimeFormat.RenderShape | src/TSE_X402.cpp:16-22 | a rendering holds 'h' iff there are hours, 'm' iff there are hours or minutes, no NUL, and it ends with the seconds segment |
| TimeFormat.FormatTime | src/TSE_X402.cpp:11-25 | the text `TSE_FormatTime` writes; `FormatTimeShape` states its segments and `FormatTimeRoundTrip` that it reads back as the input |
| TimeFormat.FormatTimeShape | src/TSE_X402.cpp:11-25 | the text ends with `{s % 60}s`, holds an hours segment iff the input is at least 3600, a minutes segment iff it is at least 60, and no NUL |
| TimeFormat.SegmentLayout | src/TSE_X402.cpp:17-21 | in a segment the digit run is the `%d` text of its value and is followed by the unit letter |
| TimeFormat.ReadLastSegment | src/TSE_X402.cpp:21 | a lone segment reads back as its count in seconds |
| TimeFormat.ReadJoinedSegment | src/TSE_X402.cpp:17-19 | a segment followed by a space adds its seconds to what the rest reads as |
| TimeFormat.ReadBeforeKnown | src/TSE_X402.cpp:17 | the hours segment before a known rest adds 3600 seconds per hour |
| TimeFormat.ReadMinutesSeconds | src/TSE_X402.cpp:19 | `"{m}m {s}s"` reads back as m * 60 + s |
| TimeFormat.RenderHoursRoundTrip | src/TSE_X402.cpp:16-17 | the three-segment format, printed whenever there are hours (with a zero minutes segment too), reads back as the whole duration |
| TimeFormat.RenderMinutesRoundTrip | src/TSE_X402.cpp:18-19 | the two-segment format reads back as the whole duration |
| TimeFormat.RenderRoundTrip | src/TSE_X402.cpp:16-22 | every rendering of a clock reads back as the seconds the clock adds up to |
| TimeFormat.FormatTimeRoundTrip | src/TSE_X402.cpp:11-25 | the formatted text of every input reads back as that input, so no two inputs give the same text |
| TimeFormat.FormatTimeZeroExample | src/TSE_X402.cpp:20-21 | 0 gives "0s" |
| TimeFormat.FormatTimeSecondsExample | src/TSE_X402.cpp:20-21 | 45 gives "45s" |
| TimeFormat.FormatTimeMinutesExample | src/TSE_X402.cpp:18-19 | 125 gives "2m 5s" |
| TimeFormat.FormatTimeZeroMinutesExample | src/TSE_X402.cpp:16-17 | 3605 gives "1h 0m 5s": with hours, a zero minutes segment is still printed |
| TimeFormat.FormatTimeHoursExample | src/TSE_X402.cpp:16-17 | 3725 gives "1h 2m 5s" |
| TimeFormat.FormatTimeLength | src/TSE_X402.cpp:17 | the text is at most nine characters longer than the number of hour digits |
| TimeFormat.FormatTimeFitsDocumentedBuffer | src/TSE_X402.h:97 | below 3,600,000,000 seconds the text and its NUL fit the documented 16 characters |
| TimeFormat.DocumentedBufferTooSmall | src/TSE_X402.h:97 | 3,600,000,610 seconds need 17 characters, more than the documented 16 |
| TimeFormat.FormatTimeFitsBuffer | src/TSE_X402.cpp:17 | every 32-bit input fits a buffer of 17 characters |
| TimeFormat.FormatTimeInBuffer | src/TSE_X402.cpp:11-25 | writes the text and a NUL at the start of the buffer, leaves the rest of the buffer unchanged, and returns the same buffer; the C string now held in the buffer is the text |
| ResponseParser.ParseAccessGranted | src/TSE_X402.cpp:39-41 | true iff the exact bytes `"accessGranted":true` occur somewhere in the reply |
| ResponseParser.AccessGrantedInContext | src/TSE_X402.cpp:39-41 | text added around a granting reply keeps it granting |
| ResponseParser.AccessGrantedTrueExample | src/TSE_X402.h:109-114 | `{"accessGranted":true}` grants access |
| ResponseParser.AccessGrantedNearMissExample | src/TSE_X402.cpp:40 | `{"accessGranted":false}` and `{"accessGranted": true}` (with a space) do not grant access |
| ResponseParser.AccessGrantedEmptyExample | src/TSE_X402.cpp:40 | `{}` does not grant access |
| ResponseParser.ParseRemainingSeconds | src/TSE_X402.cpp:27-37 | the result is an `int`, and it is 0 when the key `"remainingSeconds":` does not occur |
| ResponseParser.RemainingSecondsAfterFirstKey | src/TSE_X402.cpp:28-33 | when the first key ends at a given point, the result is `atoi` of exactly the text after that point |
| ResponseParser.RemainingSecondsRoundTrip | src/TSE_X402.cpp:27-37 | a number printed after the first key and ended by a non-digit (a comma, a brace) or by the end is read back exactly |
| ResponseParser.RemainingSecondsExample | src/TSE_X402.cpp:27-37 | `{"remainingSeconds":90}` gives 90 |
| ResponseParser.RemainingSecondsQuotedExample | src/TSE_X402.cpp:33 | a quoted `"90"` gives 0 |
| ResponseParser.RemainingSecondsAbsentExample | src/TSE_X402.h:102-107 | `{}` gives 0 |
| ResponseParser.ParseCurrency | src/TSE_X402.cpp:43-55 | USDC iff a USDC pattern occurs; TSE iff no USDC pattern and a TSE pattern occurs; unknown iff neither |
| ResponseParser.CurrencyInContext | src/TSE_X402.cpp:43-55 | added text can only move the result up the order unknown < TSE < USDC |
| ResponseParser.CurrencyTokenUsdcExample | src/TSE_X402.cpp:45 | `{"token":"USDC"}` is USDC |
| ResponseParser.CurrencyTseExample | src/TSE_X402.cpp:49-51 | `{"currency":"TSE"}` is TSE |
| ResponseParser.CurrencyUsdcFirstExample | src/TSE_X402.cpp:44-46 | a reply naming both TSE and USDC is USDC |
| ResponseParser.CurrencyEmptyExample | src/TSE_X402.cpp:54 | `{}` is unknown |

## Left out

- The session state machine, polling cadence, status and payment callbacks, and updates of `TSE_Session`. The source declares only their types, so `Vocabulary.Session` is a record with no operations.
- `TSE_PaymentCallback`'s `float amount`: floating point, with no logic attached.
- `TSE_Config`'s `const char*` fields and `TSE_Session`'s Arduino `String` fields are plain strings. Pointer identity and ownership are not modelled.
- ResponseParser.ParseRemainingSeconds: requires (`RemainingSecondsDefined`) that the number after the key fits an `int`. What `atoi` returns on overflow is undefined in C.
- ResponseParser.ParseRemainingSeconds: a reply is the text before its NUL, so a NUL inside the reply is not modelled.
- The 16-bit `int` of AVR boards. The model fixes the 32-bit targets the library names, where `int hours` never truncates (`TimeFormat.SplitFitsInt`).
- The version macros and the HTTP status-code constants: nothing in the core uses them.
- WiFi/BLE transport, HTTP framing, TLS and the `millis()` clock: external I/O, not part of these files.
- TimeFormat.FormatTimeInBuffer: the C function writes through a raw pointer and trusts the caller's buffer size. The model asks for a buffer the text and its NUL fit into, and does not model the overflow that happens otherwise.

## Findings

| source | as written | input that shows it | evidently intended | confidence | as-written member | corrected member |
|---|---|---|---|---|---|---|
| src/TSE_X402.h:97 | the buffer passed to `TSE_FormatTime` is documented as "minimum 16 chars" | 3,600,000,610 seconds print as "1000000h 10m 10s" (16 characters), and `sprintf` writes a 17th, the NUL, past a 16-character buffer | a buffer of 17 characters, which every 32-bit `unsigned long` fits | medium, not executed | TimeFormat.DocumentedBufferTooSmall | TimeFormat.FormatTimeFitsBuffer |
