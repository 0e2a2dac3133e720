# Schema validator, modelled in Dafny

The repository holds one routine in two copies: `Schema.validate`, which
checks an in-memory key/value object against an ordered map of field rules.
Each rule names the expected `typeof` string, may mark the field `required`,
and may carry a `custom` callback that returns `true` on success or a
diagnostic string. `validate` returns `{valid: true}` or
`{valid: false, errors}`, with errors accumulated in schema order.

- `src/schemaValidator.ts` splits the work into `validateField` and small
  helpers. For a present value, the type check and the custom check are two
  independent `if`s, so one field can report a type error and then a custom
  error.
- `schemaValidator.ts` runs one `if / else if / else if` chain per field, so a
  field reports at most one error and the callback only sees present values of
  the declared type.

Modules:

- `JsValues` (`js_values.dfy`): JavaScript values as far as `typeof` tells
  them apart, the `typeof` strings (`null` is `"object"`), and property access
  where a missing key reads as `undefined`.
- `SchemaTypes` (`schema_types.dfy`): `FieldSchema`, `ValidationError`,
  `ValidationResult`, the three message templates, the derivation of the
  result from the error list, and `Conforms`, a reference definition of a
  field value that satisfies its rule.
- `Aggregation` (`aggregation.dfy`): the loop both copies share. It walks the
  schema in order and appends each field's errors, with the per-field check
  as a parameter. The lemmas about ordering, adjacency, keys outside the
  schema and error counts are proved once here.
- `SrcValidator` (`src_validator.dfy`): the class of `src/schemaValidator.ts`.
  `ValidateField` and `Validate` are methods that push into a local list, as
  the source does. They are proved against the functions `FieldErrors` and
  `Outcome`.
- `RootValidator` (`root_validator.dfy`): the class of `schemaValidator.ts`.
  `Validate` is one loop with the inline if/else-if chain, proved against
  `FieldErrors` and `Outcome`.
- `Comparison` (`comparison.dfy`): how the two copies relate. Per field, the
  top-level copy reports exactly the first error the src/ copy reports. Both
  copies always agree on `valid`. Their results are identical exactly when no
  field holds a value that is of the wrong type and also rejected by its
  callback. In particular they are identical when no field has a callback.

In schemaValidator.ts the type check and the custom check exclude each
other; in src/schemaValidator.ts they do not. The model follows each file's
code, and
`SrcValidator.TypeAndCustomBothReported` and `Comparison.StringAgeDiverges`
state the difference.

Modelling choices:

- The schema is a sequence of (key, rule) pairs in iteration order. Lemmas
  that talk about one key require the keys to be distinct, as they are in a
  record.
- `custom` is a total function from values to `CustomBool(b)` or
  `CustomString(s)`. The concrete callbacks of the test suite (a numeric
  comparison, an email pattern) are parameters of the scenario lemmas, which
  state only what those callbacks return on the inputs used.
- `required` absent is `false`; `custom` absent is `None`; `actualType: null`
  is `None`; an absent `errors` member is `None`.

## Model

| member | source | states |
|---|---|---|
| `JsValues.TypeOf` | schemaValidator.ts:33 | `typeof` is "undefined" only for `undefined`, and "object" exactly for `null` and objects |
| `JsValues.Lookup` | schemaValidator.ts:32 | a key missing from the object reads as `undefined`; a present key reads as its value |
| `SchemaTypes.MakeResult` | src/schemaValidator.ts:39 | `valid` holds iff the error list is empty; `errors` is absent exactly when valid and otherwise is the whole list |
| `Aggregation.Collect` | src/schemaValidator.ts:29-37 | when the per-field check only reports its own key, every accumulated error names a schema key |
| `Aggregation.CollectBlock` | src/schemaValidator.ts:29-37 | the i-th field's errors form one block after all earlier fields' errors and before all later fields' errors |
| `Aggregation.ErrorsForField` | src/schemaValidator.ts:29-37 | with distinct keys, the errors filed under a schema key are exactly that field's own errors |
| `Aggregation.ErrorsFollowSchemaOrder` | src/schemaValidator.ts:29-37 | an error for an earlier schema key precedes every error for a later key |
| `Aggregation.FieldErrorsContiguous` | src/schemaValidator.ts:29-37 | any error between two errors of the same key has that key as well |
| `Aggregation.CollectReadsSchemaKeysOnly` | schemaValidator.ts:29-32 | two objects that agree on the schema keys yield the same errors |
| `SrcValidator.IsMissingRequiredField` | src/schemaValidator.ts:60-62 | a field is missing only when it is required and its value is `undefined` or `null` |
| `SrcValidator.IsCorrectType` | src/schemaValidator.ts:64-66 | the check passes iff the value's `typeof` equals the declared type name; `undefined` matches only "undefined" |
| `SrcValidator.PassesCustomValidation` | src/schemaValidator.ts:68-70 | the callback passes only when it returns exactly `true`; `false` and every string fail |
| `SrcValidator.CreateMissingFieldError` | src/schemaValidator.ts:72-78 | the error carries the key, the declared type, a null actual type and the "is required but was not provided" message |
| `SrcValidator.CreateTypeError` | src/schemaValidator.ts:81-88 | the error carries the key, both type names and the "Expected type ... but found type ... for key ..." message |
| `SrcValidator.CreateCustomValidationError` | src/schemaValidator.ts:90-97 | the error carries the key, the declared type, the value's `typeof`, and the callback's string verbatim or the generic message |
| `SrcValidator.FieldErrors` | src/schemaValidator.ts:42-58 | at most two errors, all under the field's key, and none exactly when the value conforms to its rule |
| `SrcValidator.Schema.constructor` | src/schemaValidator.ts:22-24 | the schema is stored as given |
| `SrcValidator.Schema.ValidateField` | src/schemaValidator.ts:42-58 | returns no list (null) exactly when the value conforms, otherwise the field's errors |
| `SrcValidator.Schema.Validate` | src/schemaValidator.ts:26-40 | the loop returns the accumulated result; valid iff every schema field conforms; `errors` absent iff valid |
| `SrcValidator.ValidIffAllConform` | src/schemaValidator.ts:39 | the result is valid iff every schema field's value conforms to its rule, and then `errors` is absent |
| `SrcValidator.OnlySchemaKeysMatter` | src/schemaValidator.ts:29-31 | every error names a schema key; object keys outside the schema do not change the result |
| `SrcValidator.ErrorsForKey` | src/schemaValidator.ts:33-36 | the errors reported under a schema key are exactly what `validateField` returned for it |
| `SrcValidator.ErrorsInSchemaOrder` | src/schemaValidator.ts:29-37 | errors for an earlier schema key come before errors for a later one |
| `SrcValidator.ErrorsOfOneKeyAdjacent` | src/schemaValidator.ts:33-36 | the errors of one key are contiguous |
| `SrcValidator.MissingRequiredReported` | src/schemaValidator.ts:72-78 | a required field that is undefined or null yields exactly one error: null actual type and the "is required but was not provided" message |
| `SrcValidator.AbsentOptionalSkipped` | src/schemaValidator.ts:48 | a non-required undefined field yields no error whatever its callback |
| `SrcValidator.WrongTypeReported` | src/schemaValidator.ts:81-88 | a present value of the wrong `typeof` (a non-required null counts as "object") is reported first with a type error naming both types |
| `SrcValidator.CustomFailureReported` | src/schemaValidator.ts:90-97 | a present value whose callback does not return exactly `true` is reported last, with the callback's string verbatim or the generic message |
| `SrcValidator.TypeAndCustomBothReported` | src/schemaValidator.ts:49-54 | a wrongly typed value that the callback rejects yields two errors, the type error first |
| `SrcValidator.ErrorCountBound` | src/schemaValidator.ts:44-57 | there are at most twice as many errors as schema fields |
| `SrcValidator.UserScenarioValid` | src/schemaValidator.test.ts:18-25 | the conforming user object gives `{valid: true}` with no `errors` member |
| `SrcValidator.UserScenarioInvalid` | src/schemaValidator.test.ts:42-54 | age -5 and a malformed email give exactly two errors, `age` then `email`, with the callbacks' messages |
| `RootValidator.FieldErrors` | schemaValidator.ts:35-65 | at most one error, under the field's key, and none exactly when the value conforms to its rule |
| `RootValidator.Schema.constructor` | schemaValidator.ts:22-24 | the schema is stored as given |
| `RootValidator.Schema.Validate` | schemaValidator.ts:26-69 | the loop with the inline chain returns the accumulated result; valid iff every field conforms; `errors` absent iff valid |
| `RootValidator.RepeatedValidation` | schemaValidator.ts:26-69 | validating the same object twice gives equal results |
| `RootValidator.ValidIffAllConform` | schemaValidator.ts:68 | the result is valid iff every schema field's value conforms to its rule, and then `errors` is absent |
| `RootValidator.OnlySchemaKeysMatter` | schemaValidator.ts:29-32 | every error names a schema key; object keys outside the schema do not change the result |
| `RootValidator.ErrorsForKey` | schemaValidator.ts:36-65 | the errors under a schema key are that field's own, at most one |
| `RootValidator.ErrorsInSchemaOrder` | schemaValidator.ts:29-66 | errors for an earlier schema key come before errors for a later one |
| `RootValidator.MissingRequiredReported` | schemaValidator.ts:36-43 | a required undefined or null field yields exactly the missing-field error, and its callback plays no part |
| `RootValidator.AbsentOptionalSkipped` | schemaValidator.ts:45-55 | a non-required undefined field yields no error and its callback plays no part |
| `RootValidator.WrongTypeReported` | schemaValidator.ts:45-52 | a present value of the wrong `typeof` yields exactly one type error naming both types, and the callback plays no part |
| `RootValidator.CustomVerdictReported` | schemaValidator.ts:55-64 | a present value of the declared type is reported iff its callback does not return exactly `true`, with the string verbatim or the generic message |
| `RootValidator.ErrorCountBound` | schemaValidator.ts:36-65 | there are at most as many errors as schema fields |
| `RootValidator.MissingNameScenario` | schemaValidator.ts:36-43 | `{age: 25}` against the user schema gives exactly one error, the missing-field error for `name` with a null actual type |
| `RootValidator.WrongAgeTypeScenario` | schemaValidator.ts:45-52 | a string age, with the email absent, gives exactly one error: the type error for `age` naming 'number' and 'string' |
| `Comparison.RootKeepsFirstSrcError` | schemaValidator.ts:36-65 | per field, the top-level copy reports exactly the first error of the src/ copy, which reports two exactly for a doubly rejected value |
| `Comparison.SameResultWithoutCustom` | src/schemaValidator.ts:44-57 | without custom callbacks both copies return identical results |
| `Comparison.SameResultIffNoDoubleRejection` | src/schemaValidator.ts:49-54 | both copies return identical results iff no field is of the wrong type and also rejected by its callback |
| `Comparison.SameValidity` | schemaValidator.ts:68 | both copies always agree on `valid` |
| `Comparison.StringAgeDiverges` | src/schemaValidator.ts:49-54 | a string age rejected by its callback gives two errors in the src/ copy and one in the top-level copy |

## Left out

- JavaScript `for...in` visits inherited enumerable keys and puts integer-like keys first. The schema here is an explicit ordered sequence of keys.
- Property access through the prototype chain (a key such as `toString`) is not modelled; a key missing from the object reads as `undefined`.
- Callbacks with side effects, nondeterminism or exceptions are not modelled. `custom` is a pure total function, so the src/ copy's second call to it (src/schemaValidator.ts:91) returns what the first one did.
- A callback result other than a boolean or a string is not modelled. `CustomBool(false)` stands for every result that is neither `true` nor a string, since the code treats all of those alike.
- Objects, arrays, functions and symbols carry no contents, so a callback cannot tell two objects (or two functions, or two symbols) apart.
- Numbers carry an integer. Fractions, `NaN` and infinities are not modelled; the validator only looks at their `typeof`.
- The numeric comparison and the email regular expression of the test suite are not modelled. The scenario lemmas take the callbacks as parameters.
- schemaValidator.test.ts is not modelled. It passes shorthand rules such as `name: 'string'`, which do not have the shape schemaValidator.ts destructures.
- Mutating the schema object after construction is not modelled; the schema is a constant field.
- TypeScript interface and export declarations are not modelled beyond the data shapes.
