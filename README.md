# NullTime: a nullable time value for SQL and JSON

This project models the `nulls` package. The package holds `NullTime`, a time value
paired with a `Valid` flag. `Valid = false` stands for SQL NULL and for JSON `null`.
The package gives `NullTime` four operations:

- database read (`Scan`);
- database write (`Value`);
- JSON write (`MarshalJSON`);
- JSON read (`UnmarshalJSON`).

Both JSON directions use one fixed layout, `2006-01-02T15:04:05-0700`. It is a four-digit
year, then two-digit month, day, hour, minute and second, with `-`, `T` and `:` between them.
The UTC offset follows as a sign and `hhmm`, with no colon.

Modules:

- `Timestamps` (timestamp.dfy): the field record that stands for a time value, and the zero time.
- `Layout` (layout.dfy): the layout constant, `Format`, `Parse`, and the lemmas that tie them
  together.
- `Decimal` (decimal.dfy): fixed-width decimal numerals. `Pad` writes a number zero-padded
  to a width, and `Number` reads a run of digits.
- `Ascii` (ascii.dfy): bytes and the text they spell, for the `[]byte(s)` and `string(b)`
  conversions.
- `Wrappers` (wrappers.dfy): `Option` and `Result`.
- `Nulls` (null_time.dfy): the `NullTime` class, the error kinds, the driver values,
  `DecodeJSON` (what `UnmarshalJSON` decides) and the round-trip properties.

Design choices:

- `NullTime` is a class with fields `time` and `valid`. In the source, `Scan` and
  `UnmarshalJSON` have pointer receivers and change the fields in place, so they are methods
  with `modifies this`. `Value` and `MarshalJSON` have value receivers, so they are functions
  that only read the object.
- `NewNullTime` is the named constructor `New`. The zero value `NullTime{}` is the anonymous
  constructor.
- The `interface{}` that `Scan` receives is the datatype `DriverValue`. It has three cases:
  a time, NULL, or any value of another type.
- Errors are the variants `RangeError` and `FormatError`. A `nil` error is `None`.
- The JSON output is not quoted, exactly as the code writes it. The text that
  `MarshalJSON` produces for a present value is therefore not a JSON string.

In two places a natural reading of the package's purpose differs from its code. The model
follows the code:

- On a parse failure, `UnmarshalJSON` writes only `Valid`. It leaves `Time` as it was
  (null_time.go:58 and 66-69). The two fields are not always overwritten as a pair.
- The layout has no fractional-second element. `Format` therefore never writes fractions,
  even for a time that has them.

## Model

| member | source | states |
|---|---|---|
| Nulls.NullTime.constructor | nulls/null_time.go:16-19 | The zero value is absent and holds the zero time. |
| Nulls.NullTime.New | nulls/null_time.go:23-25 | `NewNullTime(t)` is present and holds exactly `t`. |
| Nulls.NullTime.Scan | nulls/null_time.go:28-31 | The error is always nil. The value is present exactly when the input is a time, and then holds that time. Otherwise it holds the zero time. |
| Nulls.NullTime.Value | nulls/null_time.go:34-39 | The result is NULL exactly when the value is absent. When present, the result is the stored time, unmodified. It is never a value of another type. |
| Nulls.NullTime.MarshalJSON | nulls/null_time.go:43-53 | Fails, with a RangeError, exactly when the value is present and its year is outside [0,9999]. When absent, the bytes are `null`. When present, the bytes spell `Format(time)`. The output never contains a double quote. |
| Nulls.NullTime.UnmarshalJSON | nulls/null_time.go:57-72 | Returns a FormatError exactly when `DecodeJSON` fails. The value ends present exactly when the text parsed. Then it holds the parsed time. Otherwise the stored time is unchanged, and `null` or empty text leaves a present value absent. |
| Nulls.DecodeJSON | nulls/null_time.go:59-71 | The result is "absent, no error" exactly for `null` and for empty input. Every failure is a FormatError. A parsed time comes only from text of the layout's length. |
| Nulls.NullText | nulls/null_time.go:52 | Bytes spell `null` exactly when they are the bytes of the literal that `json.Marshal(nil)` writes. |
| Nulls.MarshalRoundTrip | nulls/null_time.go:43-72 | Marshalling succeeds on an absent value, and on a present value with a four-digit year. Decoding the output gives back absence, or the same time with every field equal. |
| Nulls.DecodeIff | nulls/null_time.go:50-71 | A text decodes to time `t` exactly when its year has four digits and the text is `Format(t)`. The one exception is a zero offset spelled `-0000`. |
| Nulls.JsonRoundTrip | nulls/null_time.go:43-72 | One object marshals and another unmarshals the bytes. The second ends with the first's `Valid` and, when present, its time, with no error. |
| Nulls.DatabaseRoundTrip | nulls/null_time.go:28-39 | One object's `Value` is scanned by another. The second ends with the first's `Valid`, its time when present and the zero time when absent, with no error. |
| Decimal.Pad | nulls/null_time.go:11 | A numeric field of the layout is exactly `width` characters, all digits. |
| Decimal.Number | nulls/null_time.go:65 | A run of `w` digits reads as a number below 10^w. |
| Decimal.NumberOfPad | nulls/null_time.go:11 | A number that fits in `width` digits reads back from its padded numeral. |
| Decimal.PadOfNumber | nulls/null_time.go:65 | A run of digits is the padded numeral of the number it spells, leading zeros included. |
| Layout.Format | nulls/null_time.go:11 | The output always has the layout's shape `YYYY-MM-DDThh:mm:ss±hhmm`: 24 characters, digits in the field positions, `-`, `T` and `:` between fields, and `+` or `-` at the offset sign. |
| Layout.FollowsTimeFormat | nulls/null_time.go:11 | That shape is exactly the one the constant `2006-01-02T15:04:05-0700` spells. It has the constant's length, digits where the constant has digits, the constant's literals elsewhere, and a sign where `-0700` has its sign. |
| Layout.Parse | nulls/null_time.go:65 | Accepted text always has the layout's shape, and the parsed year is in [0,9999]. |
| Layout.ParseFormat | nulls/null_time.go:11 | Parsing what `Format` writes gives back the same time, field by field. |
| Layout.FormatParse | nulls/null_time.go:65 | Whatever `Parse` accepts, `Format` writes back identically. The exception is a zero offset written `-0000`, which comes back as `+0000`. |
| Layout.ParseIff | nulls/null_time.go:11 | `Parse(s)` is `t` exactly when the year of `t` has four digits and `s` is `Format(t)`, or `s` is its `-0000` spelling. |
| Layout.NegativeZero | nulls/null_time.go:65 | The `-0000` spelling of a zero offset has the layout's shape and a `-` sign. |
| Layout.ParseNegativeZero | nulls/null_time.go:65 | A zero offset written `-0000` parses as offset zero. |
| Layout.ShapedAscii | nulls/null_time.go:50 | Text of the layout's shape is ASCII and holds no double quote. |
| Ascii.TextOfBytes | nulls/null_time.go:50 | For ASCII text, converting to bytes and back gives the same text. |
| Ascii.TextInjective | nulls/null_time.go:59 | Two byte strings that spell the same text are the same bytes. |

## Left out

- The full Go `time.Time` is left out. That covers locations, monotonic readings, nanoseconds
  and calendar normalisation. A time is a record of year, month, day, hour, minute, second and
  a UTC offset in whole minutes. Each field is kept in its clock range. The offset is within
  ±23:59, and offsets with a seconds part are not modelled.
- Fractional seconds are left out. The time library accepts them after the seconds when it
  parses (null_time.go:64). `Parse` rejects them, and the model keeps whole seconds only.
- The time library's own acceptance rules are not modelled. That includes day-of-month
  checks against the month, lenient field widths, and its offset range limits. `Parse`
  accepts exactly the 24-character layout with each field in its clock range. The day is
  checked only against 1..31.
- The time library's formatter and parser are not part of this model. `Format` and `Parse`
  stand for `time.Time.Format` and `time.Parse` with this one layout.
- Text is one character per byte. That is exact for the ASCII text the layout and `null`
  use. Bytes above 127 never match either of them.
- Error message strings are left out. Errors are the variants `RangeError` and `FormatError`.
- The `database/sql/driver` and `encoding/json` interface plumbing is left out. Only the
  literal `null` that `json.Marshal(nil)` writes is modelled.
- Concurrent access to the two fields is left out.
