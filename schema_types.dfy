/**
 The data shapes both copies of the validator share (ValidationError,
 ValidationResult, FieldSchema), the three message templates, the way the
 final result is derived from the accumulated errors, and a reference
 definition of what it means for one field's value to conform to its rule.
 */
module SchemaTypes {
  import opened JsValues

  datatype Option<T> = None | Some(value: T)

  /** What a `custom` callback returns: `true`/`false`, or a diagnostic string. */
  datatype CustomResult = CustomBool(b: bool) | CustomString(s: string)

  /** One field rule. An omitted `required` is `false`; an omitted `custom` is `None`. */
  datatype FieldSchema = FieldSchema(expectedType: string, required: bool, custom: Option<Value -> CustomResult>)

  /** `actualType` is `None` where the source stores `null`. */
  datatype ValidationError = ValidationError(key: string, expectedType: string, actualType: Option<string>, message: string)

  /** `errors` is `None` where the source leaves the member out. */
  datatype ValidationResult = ValidationResult(valid: bool, errors: Option<seq<ValidationError>>)

  /** The schema as an ordered sequence of (key, rule) pairs, in iteration order. */
  type SchemaEntries = seq<(string, FieldSchema)>

  ghost predicate DistinctKeys(entries: SchemaEntries)
  {
    forall i, j :: 0 <= i < j < |entries| ==> entries[i].0 != entries[j].0
  }

  ghost function Keys(entries: SchemaEntries): set<string>
  {
    set i | 0 <= i < |entries| :: entries[i].0
  }

  function MissingMessage(key: string): string
  {
    "The field '" + key + "' is required but was not provided."
  }

  function TypeMessage(expectedType: string, actualType: string, key: string): string
  {
    "Expected type '" + expectedType + "' but found type '" + actualType + "' for key '" + key + "'."
  }

  /** The message of a failed custom check: the callback's string verbatim,
      otherwise the generic text naming the key. */
  function CustomMessage(res: CustomResult, key: string): string
  {
    if res.CustomString? then res.s else "Custom validation failed for key '" + key + "'."
  }

  /** A non-empty error list gives an invalid result that carries the list;
      an empty one gives a valid result with no errors member. */
  function MakeResult(errors: seq<ValidationError>): (r: ValidationResult)
    ensures r.valid <==> |errors| == 0
    ensures r.valid <==> r.errors.None?
    ensures r.errors.Some? ==> r.errors.value == errors
  {
    if |errors| > 0 then ValidationResult(false, Some(errors)) else ValidationResult(true, None)
  }

  /** The errors a result reports, the empty sequence when the member is absent. */
  function ErrorsOf(r: ValidationResult): seq<ValidationError>
  {
    if r.errors.Some? then r.errors.value else []
  }

  /** The errors reported for one key, in their order of appearance. */
  function ErrorsWithKey(errors: seq<ValidationError>, key: string): seq<ValidationError>
  {
    if |errors| == 0 then []
    else (if errors[0].key == key then [errors[0]] else []) + ErrorsWithKey(errors[1..], key)
  }

  /** A field value that satisfies its rule: absent and optional, or present
      (a non-required `null` counts as present), of the declared `typeof`, and
      accepted by the custom callback when there is one. */
  predicate Conforms(fs: FieldSchema, v: Value)
  {
    if v.Undefined? then !fs.required
    else if v.Null? && fs.required then false
    else TypeOf(v) == fs.expectedType && (fs.custom.None? || fs.custom.value(v) == CustomBool(true))
  }

  lemma {:induction false} ErrorsWithKeyAppend(a: seq<ValidationError>, b: seq<ValidationError>, key: string)
    ensures ErrorsWithKey(a + b, key) == ErrorsWithKey(a, key) + ErrorsWithKey(b, key)
  {
    if |a| > 0 {
      assert (a + b)[1..] == a[1..] + b;
      ErrorsWithKeyAppend(a[1..], b, key);
    } else {
      assert a + b == b;
    }
  }

  lemma {:induction false} ErrorsWithKeyAll(errors: seq<ValidationError>, key: string)
    requires forall e :: e in errors ==> e.key == key
    ensures ErrorsWithKey(errors, key) == errors
  {
    if |errors| > 0 {
      ErrorsWithKeyAll(errors[1..], key);
    }
  }

  lemma {:induction false} ErrorsWithKeyNone(errors: seq<ValidationError>, key: string)
    requires forall e :: e in errors ==> e.key != key
    ensures ErrorsWithKey(errors, key) == []
  {
    if |errors| > 0 {
      ErrorsWithKeyNone(errors[1..], key);
    }
  }
}
