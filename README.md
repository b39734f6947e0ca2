# Form builder API: answer validation, bucket keys and the summary reshape

This project models the logic of the form builder's Go API
(`form-builder/apps/api/main.go`). It covers four pieces:

- **Answer validation** (`validateAnswers`). The server checks a submitted
  response against the form's fields. First a required-field pass runs in
  field order, then each answer is type-checked in answer order. The first
  failure is reported.
- **Bucket keys** (`toKey`). An answer value becomes a string key. A string
  is its own key, a number its decimal form, and an array the keys of its
  elements joined by `|`.
- **Summary reshape** (the loop in `analyticsSummary`). Grouped rows
  `(fieldId, value, count)` are folded into `fieldId -> (key -> count)`.
- **New-form defaults** (`createForm`). An empty title becomes
  "Untitled Form" and the status is forced to "draft".

Modules:

- `Wrappers`: `Option` and the pass/fail `Outcome`.
- `Values`: the decoded answer value, the decimal form of integers, joining
  and splitting on `|`, and `ToKey`.
- `Validation`: fields, answers, the error kinds and their messages. It has
  the specification functions (`FieldMap`, `FirstMissing`, `CheckValue`,
  `CheckAnswers`, `Validate`). It also has the loop-based methods
  `TypeCheck` and `ValidateAnswers`, each proved equal to its function.
- `Analytics`: grouped rows, the reshape as written (`Reshaped`, `Reshape`)
  and the summing correction (`ReshapedSummed`, `ReshapeSummed`).
- `Forms`: the defaults a new form gets.

Modelling choices:

- JSON and BSON numbers are integers (`Value.Int`). A number's key is its
  decimal form. This is what `fmt.Sprint` writes for Go integers, and what
  `strconv.FormatFloat(x, 'f', -1, 64)` writes for a whole-valued float of
  magnitude below 2^53 other than -0 (see "## Left out" for the others).
- Every other value (booleans, null, objects) is `Value.Other(ext)`, where
  `ext` is the key the default branch leaves: the extended-JSON text for a
  document, and the empty string for a boolean, null or array, which
  `bson.MarshalExtJSON` refuses at the top level (the source ignores that
  error). The model takes that text as given.
- A field's type is kept as its raw string, so an unknown type can reach the
  `default` branch of the switch.

What the code does, as modelled:

- The server checks required fields. Presence of an answer is enough: an
  empty string or an empty array satisfies a required field.
- Checkbox answers are keyed as a whole, not counted per selected option.
  When an array reaches `toKey` as `[]interface{}`, its key is the keys of
  its elements joined with `|`.
- No schema validation happens. An `mcq` field may have no options, and a
  rating's `min` may exceed its `max`. Neither is rejected.

## Model

| member | source | states |
|---|---|---|
| `Values.Digits` | form-builder/apps/api/main.go:347-348 | the decimal digits of a natural number are all digits, and only zero begins with '0' |
| `Values.Decimal` | form-builder/apps/api/main.go:347-348 | an integer's decimal form is non-empty and never contains the &#124; separator |
| `Values.DigitsValueOfDigits` | form-builder/apps/api/main.go:347-348 | reading the digits of n back as a number gives n |
| `Values.DecimalRoundTrip` | form-builder/apps/api/main.go:347-348 | parsing an integer's decimal form gives back the integer |
| `Values.DecimalInjective` | form-builder/apps/api/main.go:347-348 | two integers with the same decimal form are equal |
| `Values.SplitJoin` | form-builder/apps/api/main.go:349-354 | splitting the &#124;-join of a non-empty list of separator-free parts gives back the parts |
| `Values.ElementKeys` | form-builder/apps/api/main.go:350-353 | the parts collected for an array are one key per element, in element order |
| `Values.StringKeyIsIdentity` | form-builder/apps/api/main.go:342-343 | a string's key is the string itself, unchanged |
| `Values.IntKeyRoundTrip` | form-builder/apps/api/main.go:347-348 | an integer's key parses back to the integer and contains no separator |
| `Values.ArrayKeyRoundTrip` | form-builder/apps/api/main.go:349-354 | an empty array's key is ""; a non-empty array's key splits back into its element keys when no element key contains &#124; |
| `Values.KeyCollisions` | form-builder/apps/api/main.go:340-359 | different values can share a key: [] and "" do, and so do ["a","b"] and "a&#124;b" |
| `Validation.FieldMapDomain` | form-builder/apps/api/main.go:397-400 | the id lookup holds exactly the ids of the form's fields |
| `Validation.FieldMapLastWins` | form-builder/apps/api/main.go:397-400 | when several fields share an id, the lookup yields the last of them |
| `Validation.FirstMissingFound` | form-builder/apps/api/main.go:403-416 | if field i is the first required field without an answer, the required pass reports field i's id |
| `Validation.FirstMissingNone` | form-builder/apps/api/main.go:403-416 | the required pass finds nothing exactly when every required field has an answer |
| `Validation.FirstMissingSome` | form-builder/apps/api/main.go:403-416 | a reported id is that of the first required field, in field order, without an answer |
| `Validation.MessageInjective` | form-builder/apps/api/main.go:413-481 | the error texts ("missing required field: id", "unknown field: id", "field id expects string", ..., "unsupported field type t") identify the error: two errors with the same message are the same error |
| `Validation.CheckValue` | form-builder/apps/api/main.go:424-482 | an answer's value passes exactly when its field's type admits it: text/textarea take a string; mcq takes a string among the options, or any string when there are none; checkbox takes an array whose elements are strings among the options; rating takes a number in [min, max], defaulting to 1 and 5. Errors name the field; an unknown type fails with "unsupported field type" |
| `Validation.CheckAnswersPass` | form-builder/apps/api/main.go:419-484 | the type checks pass exactly when every answer names a known field and passes that field's check |
| `Validation.CheckAnswersFirstFailure` | form-builder/apps/api/main.go:419-484 | the reported error is that of the first failing answer, in answer order |
| `Validation.CheckAnswersFailWitness` | form-builder/apps/api/main.go:419-484 | every type-check error is the error of some answer |
| `Validation.ValidateAccepts` | form-builder/apps/api/main.go:395-485 | a response is accepted exactly when every required field has an answer and every answer names a field and has a value that field admits |
| `Validation.MissingRequiredReportedFirst` | form-builder/apps/api/main.go:402-416 | "missing required field" names field f exactly when f is the first required field without an answer, whatever the other answers hold |
| `Validation.PresenceSatisfiesRequired` | form-builder/apps/api/main.go:405-411 | any answer naming a field, even "" or [], keeps that field from being reported missing |
| `Validation.UnknownFieldRejected` | form-builder/apps/api/main.go:419-423 | once required fields are answered, the first answer naming no field fails with "unknown field" unless an earlier answer failed |
| `Validation.UnsupportedTypeNeedsAnswer` | form-builder/apps/api/main.go:480-481 | "unsupported field type t" is reported only when t is not one of the five types and some answer targets a field of type t |
| `Validation.CheckboxSelections` | form-builder/apps/api/main.go:447-462 | a checkbox field always accepts []; with no options it rejects any non-empty array |
| `Validation.McqWithoutOptions` | form-builder/apps/api/main.go:435-446 | an mcq field without options accepts any string |
| `Validation.RatingDefaultBounds` | form-builder/apps/api/main.go:469-479 | without explicit bounds, a rating passes exactly when 1 <= n <= 5 |
| `Validation.TypeCheck` | form-builder/apps/api/main.go:424-482 | the type switch, with the option scan and the option-set loops, returns exactly the error `CheckValue` specifies |
| `Validation.ValidateAnswers` | form-builder/apps/api/main.go:395-485 | the three loops with early returns compute exactly `Validate`: the required pass first, then the type checks |
| `Analytics.Reshape` | form-builder/apps/api/main.go:290-299 | the loop computes the fold of the rows in order, where each row sets its key to its count |
| `Analytics.ReshapedByField` | form-builder/apps/api/main.go:291-299 | every field id seen has an inner map and no other id has one; each field's map is built from that field's rows alone |
| `Analytics.FieldTableKeys` | form-builder/apps/api/main.go:293-298 | a field's map holds exactly the keys of that field's rows |
| `Analytics.FieldTableLastWins` | form-builder/apps/api/main.go:298 | a key's entry is the count of the last row with that field and key |
| `Analytics.ReshapedLastWins` | form-builder/apps/api/main.go:291-299 | after the loop, `out[fid][key]` is the count of the last row with that field id and key; a colliding key overwrites |
| `Analytics.CollidingValuesOverwrite` | form-builder/apps/api/main.go:292-299 | groups ["a&#124;b"] (count 2) and ["a","b"] (count 3) of one field share key "a&#124;b"; the loop keeps 3 in that order and 2 in the reverse order, although their total is 5 in both |
| `Analytics.ReshapeSummed` | form-builder/apps/api/main.go:290-299 | the corrected loop computes the fold where each row adds its count to its key's entry |
| `Analytics.ReshapedSummedTotals` | form-builder/apps/api/main.go:290-299 | with summing, each entry is the total count of that field's rows with that key, and a missing entry means zero |
| `Analytics.SummedAgreesWithoutCollisions` | form-builder/apps/api/main.go:290-299 | when no two rows of a field share a key, the summing and overwriting reshapes give the same map |
| `Forms.NewFormDefaults` | form-builder/apps/api/main.go:132-135 | a new form always has a non-empty title, kept when one was given, and status "draft"; owner, description and fields are unchanged |
| `Forms.NewFormDefaultsIdempotent` | form-builder/apps/api/main.go:132-135 | applying the defaults twice equals applying them once; an empty title becomes "Untitled Form" |

## Findings

| source | as written | input that shows it | evidently intended | confidence | as-written member | corrected member |
|---|---|---|---|---|---|---|
| form-builder/apps/api/main.go:292-299 | `out[fid][val] = r.Count` replaces an entry when two grouped values of one field map to the same key | checkbox field with options "a", "b" and "a&#124;b"; two responses answer ["a&#124;b"] and three answer ["a","b"]; when arrays reach `toKey` as `[]interface{}`, both groups get key "a&#124;b", and the summary shows 2 or 3, whichever group the cursor yields last, never 5. If the driver hands arrays over in another type, they take the default branch instead, and every array group of the field then gets the empty key, because `bson.MarshalExtJSON` refuses a top-level array and the source ignores the error, so the overwrite still happens | the bucket shows the total count, 5 | medium; not executed | `Analytics.CollidingValuesOverwrite` | `Analytics.ReshapedSummedTotals` |

## Left out

- MongoDB access is not modelled: `InsertOne`, `FindOne`, `UpdateByID`, `Find`, and the `$match`/`$unwind`/`$group` pipeline. The reshape starts from already-grouped rows.
- The Fiber HTTP handlers, routing, body parsing, CORS, `getForm`, `updateForm`, `publishForm` and `submitResponse` are not modelled. They are I/O glue around the modelled functions.
- `time.Now()` and the `CreatedAt`/`UpdatedAt`/`SubmittedAt` timestamps are not modelled. They depend on the clock.
- The websocket hub (`hubMap`, `wsHandler`, `broadcast`) is not modelled. Its purpose is concurrent connection tracking under a mutex.
- `exportCSV` is not modelled. It streams from a database cursor, and it uses `toKey` only as modelled here.
- `clientIP` is not modelled. It is a wrapper over `net.ParseIP`.
- `Values.ToKey`: floating-point numbers are not modelled. JSON numbers are integers here, so `strconv.FormatFloat` for fractional values is out.
- `Values.ToKey`: two kinds of whole-valued float are keyed differently from `Decimal`. From magnitude 2^53 up, `FormatFloat` writes the shortest digits that read back to the same float, padded with zeros: 2^60 becomes "1152921504606847000", while `Decimal(2^60)` is "1152921504606846976". Negative zero becomes "-0", while `Decimal(0)` is "0". A rating answer can carry such a value, because no schema check bounds `min` and `max`. Integers above 2^53 also lose precision when JSON decodes them to `float64`, and that is not modelled either.
- `Validation.CheckValue`: the `int(num)` truncation of a fractional rating is not modelled, for the same reason.
- `Values.ToKey`: assumes arrays reach `toKey` as `[]interface{}`. In `analyticsSummary` and `exportCSV` the values are decoded by the MongoDB driver, which may hand an array over as its own defined slice type (`primitive.A`). A type switch's `case []interface{}` does not match such a type, so those arrays may take the default branch instead of the join. Validation is not affected: `validateAnswers` sees JSON-decoded `[]interface{}` values.
- `Analytics.Reshape`: the row order comes from the database, and the `$group` stage does not specify it. The model takes the rows in a given order, so which of two colliding counts survives is not determined by the source; `Analytics.CollidingValuesOverwrite` shows both outcomes.
- `Values.ToKey`: the default branch calls `bson.MarshalExtJSON`, a foreign serialiser. `Other(ext)` carries the resulting key as given: its output for a document, or "" when it refuses the value and the source ignores the error.
- The `VisibleIf` and `Placeholder` field attributes are not modelled. Nothing in the modelled code reads them.
- The web client is not modelled: `page.tsx` files, `layout.tsx`, `ThemeToggle.tsx` and `api.ts`. It is UI and a `fetch` wrapper.
