# GPRMC decoder of the e-paper speed display

This project models the NMEA 0183 decoder in `showkts.go`, the program that reads a GPS receiver on a serial port and shows ground speed on an e-paper display. The decoder takes one record that has already been split on commas. It checks that the record is a 13-field `$GPRMC` ("Recommended Minimum Specific GNSS Data") sentence. It then fills a fix record with:

- the UTC time stamp, rebuilt from `HHMMSS` and `DDMMYY`;
- the validity character;
- latitude and longitude, converted from degree-minute strings to signed decimal degrees;
- speed and course over ground;
- magnetic variation and its direction character.

Files:

- `wrappers.dfy` (module `Wrappers`): the `Option` type.
- `strconv.dfy` (module `Strconv`): the Go library calls the decoder depends on, as exact functions. These are `strings.Index` for one character, `strconv.Atoi`, and `strconv.ParseFloat` over plain decimal notation: an optional sign, digits, an optional `.` and more digits, and at least one digit overall.
- `showkts.dfy` (module `Showkts`): the decoder itself.
  - `DegmintoFloat` and `TimeFromGPS` are functions.
  - `Point.FromGPS` is a method that writes both cells of a two-element `array<real>`. That array stands for Go's `Point` (`[2]float64`).
  - `GPRMC` is a class with the struct's fields. Its method `FromNMEA` updates the record in place.

Modelling choices:

- Strings are `seq<char>`; the source indexes bytes, and a byte is a `char` here.
- Floating-point values are exact `real`s.
- `time.Now()` is replaced by a `today: Date` parameter.
- The result of `time.Date` is kept as the raw component tuple `Timestamp(year, month, day, hour, minute, second, nanosecond)`, always in UTC.
- Go panics become `requires` clauses:
  - `s[0]` needs a non-empty record;
  - `gtime[0:6]` needs at least six characters;
  - `s[2][0]` needs a non-empty validity field;
  - `dir[0]` needs a non-empty direction, but only once both parts of the coordinate have parsed;
  - `s[10][0]` needs a non-empty variation field, but only when `s[11]` is non-empty.
- The sentence a receiver sends before it has a fix, `$GPRMC,,V,,,,,,,,,,N`, has 13 fields and the right tag but an empty time field. Reading the code, `gtime[0:2]` then panics (showkts.go:68), and nothing in `show_speed` recovers (showkts.go:146-170). This follows from reading the code alone. The model keeps the panic as a precondition of `FromNMEA` (`NoFixSentencePanics`).
- The malformed-coordinate sentinel is `0`, as the code returns. It is not NaN.
- Year: the NMEA 0183 sample date field `230394` stands for 23 March 1994. The code computes `2000 + YY`, which gives 2094. The model follows the code (`TimeFromGPSExamples`).
- Variation direction: the code tests whether field 11 (the hemisphere field) is non-empty, but reads the character from field 10 (the variation value). The model keeps this behaviour. On the standard sentence, `eastWest` therefore becomes `'0'` rather than `'W'` (`EastWestReadsVariation`, `DecodeSample`).

## Model

| member | source | states |
|---|---|---|
| `Strconv.Index` | showkts.go:28 | The result is -1 exactly when the character does not occur. Otherwise it is an index holding the character, and no earlier index holds it. |
| `Strconv.ParseFloat` | showkts.go:32-39 | A successful parse saw at least one digit and only digits, at most one `.`, and a sign only in front. A pure digit string parses to the number it denotes. The sign of the result follows a leading `-`. |
| `Strconv.ParseFloatDecimal` | showkts.go:36 | `digits.digits` parses to the integer part plus the fraction. |
| `Strconv.ParseFloatNegative` | showkts.go:32-39 | A leading `-` in front of an unsigned string negates its value, and fails exactly when the unsigned string fails. |
| `Strconv.ParseFloatPositive` | showkts.go:32-39 | A leading `+` changes neither the value nor whether the parse succeeds. |
| `Strconv.ParseFloatFraction` | showkts.go:94-99 | A `.` followed by digits, with no integer part, parses to the fraction alone (`".5"` is 0.5). |
| `Strconv.Atoi` | showkts.go:57-60 | A successful parse starts with a digit, or with a sign that something follows; every later character is a digit. The value stays within the range the string's length allows. A pure digit string parses to the number it denotes. |
| `Strconv.AtoiSigned` | showkts.go:57-60 | A digit string behind `-` parses to the negated number, and behind `+` to the number itself. |
| `Strconv.AtoiPad2` | showkts.go:68-70 | Round trip: a zero-padded two-digit rendering of any `n < 100` parses back to `n`. |
| `Showkts.DegmintoFloat` | showkts.go:27-45 | Any failure, of the split at the first `.` or of either parse, gives the sentinel 0. Otherwise the result is degrees plus minutes over sixty, negated exactly when the direction starts with `S` or `W`. |
| `Showkts.DegmintoFloatNoRoom` | showkts.go:28-31 | With no `.`, or a first `.` at index 0 or 1, the direction is never read and the result is the sentinel 0. |
| `Showkts.DegmintoFloatNoDegrees` | showkts.go:32-35 | A first `.` at index 2 leaves the degrees part empty, so the result is 0 (e.g. `"12.5"`). |
| `Showkts.DegmintoFloatTwoPoints` | showkts.go:28-39 | Any value with two `.` characters gives 0: the second one always lands in the minutes part. |
| `Showkts.DegmintoFloatForeignCharacter` | showkts.go:32-39 | A character that is neither a digit nor `.` (nor a leading sign) anywhere in the degrees part or the minutes part makes the value unparsable and the result 0. |
| `Showkts.DegmintoFloatForeignDegreesExample` | showkts.go:32-35 | `("4a07.038","N")` gives 0: the `a` spoils the degrees part. |
| `Showkts.DegmintoFloatForeignMinutesExample` | showkts.go:36-39 | `("4807.0x8","N")` gives 0: the `x` spoils the minutes part. |
| `Showkts.DegreesMinutesSplit` | showkts.go:28-36 | For `deg + mm + "." + frac`, the first `.` is at `|deg| + 2`. The degrees part is `deg` and the minutes part is `mm + "." + frac`, whatever the width of `deg`. |
| `Showkts.DegmintoFloatDigits` | showkts.go:27-45 | A well-formed `D..DMM.F..F` parses, and decodes to `D + (MM + 0.F)/60`. The result is negated exactly when the direction starts with `S` or `W`. |
| `Showkts.DegmintoFloatHemisphere` | showkts.go:41-43 | For any value, an `S`/`W` direction gives the negation of what an `N`/`E` direction gives. |
| `Showkts.DegmintoFloatNorthExample` | showkts.go:27-45 | `("4807.038","N")` gives `48 + 7.038/60`. |
| `Showkts.DegmintoFloatSouthExample` | showkts.go:41-43 | `("4807.038","S")` gives `-(48 + 7.038/60)`. |
| `Showkts.DegmintoFloatEastExample` | showkts.go:27-45 | `("01131.000","E")` has a three-digit degrees part and gives `11 + 31/60`. |
| `Showkts.DegmintoFloatShortExample` | showkts.go:32-35 | `("12.5","N")` gives 0. |
| `Showkts.FromGPS` | showkts.go:47-51 | Component 0 becomes the decoded latitude and component 1 the decoded longitude, each from its own value and direction. |
| `Showkts.AtoiOrZero` | showkts.go:57-70 | A digit pair that `Atoi` rejects counts as 0; one it accepts counts as its value. |
| `Showkts.TimeFromGPS` | showkts.go:53-72 | Nanoseconds are 0. Hour, minute and second lie in -9..99. With a date field of six or more characters, the year lies in 1991..2099 and month and day lie in -9..99. |
| `Showkts.TimeFromGPSDated` | showkts.go:56-61 | Round trip: zero-padded `HHMMSS` and `DDMMYY` fields, with any trailing characters, give `(2000+YY, MM, DD, HH, MM, SS, 0)`. |
| `Showkts.TimeFromGPSUndated` | showkts.go:62-70 | A date field of five characters or fewer gives the clock's year, month and day. The time of day is the same as with any other date field and clock. |
| `Showkts.TimeFromGPSFailSoft` | showkts.go:57-70 | With a date field of six or more characters, each digit pair counts independently. A pair that `Atoi` rejects gives 0 (a rejected year pair gives 2000). A pair it accepts gives its value (2000 plus the value for the year), whatever the other pairs hold. |
| `Showkts.TimeFromGPSExamples` | showkts.go:53-72 | `("123519","230394")` gives 2094-03-23 12:35:19. `("123519","")` gives the clock's date at 12:35:19. |
| `Showkts.TimeFromGPSPartialExample` | showkts.go:68-70 | `"12ab19"` gives hour 12, minute 0 and second 19: the spoiled pair costs only its own component. A signed pair `"-5"` gives hour -5. |
| `Showkts.CheckRecord` | showkts.go:85-90 | A record passes exactly when the tag is `$GPRMC` and there are 13 fields. A wrong tag is reported first, even when the count is also wrong. |
| `Showkts.FloatOrZero` | showkts.go:94-99 | An unparsable numeric field gives 0 instead of an error. |
| `Showkts.EastWestAfter` | showkts.go:100-102 | With an empty field 11 the previous direction is kept; otherwise the direction is the first character of field 10. |
| `Showkts.EastWestReadsVariation` | showkts.go:100-102 | For variation `"003.1"` and hemisphere `"W"`, the direction read is `'0'`, which differs from `'W'`. |
| `Showkts.NoFixSentencePanics` | showkts.go:68 | The 13-field sentence of a receiver without a fix, `$GPRMC,,V,,,,,,,,,,N`, passes the structural check but has an empty time field, so it lies outside what decoding can index. |
| `Showkts.GPRMC.constructor` | showkts.go:74-82 | A fresh record holds Go's zero values, with the zero time of 1 January of year 1. |
| `Showkts.GPRMC.FromNMEA` | showkts.go:84-104 | The error is the structural check's. On error the record is unchanged. On success: the time comes from fields 1 and 9, and validity is the first character of field 2. The position comes from fields 3-6. Speed, course and variation come from fields 7, 8 and 10, with 0 for an unparsable field. `eastWest` changes only when field 11 is non-empty. |
| `Showkts.DecodeSample` | showkts.go:84-104 | Decoding the standard sample sentence (13-field form) gives speed 22.4, year 2094, latitude `48 + 7.038/60` and direction `'0'`. |
| `Showkts.DecodeShortSample` | showkts.go:88-90 | The same sentence without its mode field (12 fields) is refused with the field-count error. |

## Left out

- Float precision: speed, course and variation are exact reals. The source rounds them to `float32` (`ParseFloat(..., 32)` and the `float32` conversions), and the coordinates are `float64`.
- `ParseFloat` grammar: only plain decimal notation is modelled. Exponents, hexadecimal forms, `Inf`/`NaN` and underscores are not, so the model rejects some strings that Go accepts.
- `Atoi` range errors: Go's `Atoi` fails on values outside the 64-bit integer range. The model's integers are unbounded. The decoder only passes two-character slices, so this never applies.
- `ParseFloat` range errors: Go returns ±Inf together with an error for out-of-range values. In the model no value is out of range.
- `time.Date` normalisation: out-of-range components (month 0 after a failed parse, say) are not normalised. The raw tuple is returned.
- `time.Now()` is not called; its local-time date is the `today` parameter.
- `Point.FromGPS`'s `error` result is always nil, so the model's method has no result.
- `epd_write`: device-file I/O through `/dev/epd`, with the bitmap encoded by the external `netpbm` package.
- `show_data`: font rasterisation through external libraries.
- `show_speed`: serial port and CSV reading. The model does not capture that it only calls `FromNMEA` on records whose first field is `$GPRMC`, and ignores the returned error. A 12-field record (NMEA 0183 before version 2.3, without the mode field) is refused with the field-count error, and `show_speed` then displays the untouched zero speed (showkts.go:161-163).
- `setbaud` and the commented-out termios block: raw `ioctl` system calls.
- `main`: an endless loop with a one-minute sleep.
