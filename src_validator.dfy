/**
 The `Schema` class of src/schemaValidator.ts. `validate` walks the schema and
 concatenates what `validateField` reports per field. Inside `validateField`
 the type check and the custom check of a present value are two independent
 `if`s, so one field can report a type error followed by a custom error.
 */
module SrcValidator {
  import opened JsValues
  import opened SchemaTypes
  import opened Aggregation

  /** A required field whose value is `undefined` or `null`; an optional
      field is never missing. */
  predicate IsMissingRequiredField(required: bool, v: Value)
    ensures IsMissingRequiredField(required, v) ==> required
    ensures IsMissingRequiredField(required, v) <==> required && (TypeOf(v) == "undefined" || v.Null?)
  {
    required && (v.Undefined? || v.Null?)
  }

  /** The value's `typeof` is the declared type name; `undefined` matches only
      the name "undefined". */
  predicate IsCorrectType(expectedType: string, v: Value)
    ensures IsCorrectType(expectedType, v) <==> TypeOf(v) == expectedType
    ensures v.Undefined? ==> (IsCorrectType(expectedType, v) <==> expectedType == "undefined")
  {
    TypeOf(v) == expectedType
  }

  /** Only a callback result of exactly `true` passes: `false` and every
      string, even an empty one, fail. */
  predicate PassesCustomValidation(custom: Value -> CustomResult, v: Value)
    ensures PassesCustomValidation(custom, v) <==> custom(v).CustomBool? && custom(v).b
  {
    custom(v) == CustomBool(true)
  }

  /** The error for a required field that was not provided: no actual type. */
  function CreateMissingFieldError(key: string, expectedType: string): (r: ValidationError)
    ensures r.key == key && r.expectedType == expectedType
    ensures r.actualType.None?
    ensures r.message == "The field '" + key + "' is required but was not provided."
  {
    ValidationError(key, expectedType, None, MissingMessage(key))
  }

  /** The error for a present value of the wrong type, naming both types. */
  function CreateTypeError(key: string, expectedType: string, actualType: string): (r: ValidationError)
    ensures r.key == key && r.expectedType == expectedType
    ensures r.actualType == Some(actualType)
    ensures r.message == "Expected type '" + expectedType + "' but found type '" + actualType + "' for key '" + key + "'."
  {
    ValidationError(key, expectedType, Some(actualType), TypeMessage(expectedType, actualType, key))
  }

  /** The error for a value the callback rejected: the value's `typeof` as
      actual type, and the callback's string verbatim or the generic message. */
  function CreateCustomValidationError(key: string, expectedType: string, v: Value, custom: Value -> CustomResult): (r: ValidationError)
    ensures r.key == key && r.expectedType == expectedType
    ensures r.actualType == Some(TypeOf(v))
    ensures custom(v).CustomString? ==> r.message == custom(v).s
    ensures custom(v).CustomBool? ==> r.message == "Custom validation failed for key '" + key + "'."
  {
    ValidationError(key, expectedType, Some(TypeOf(v)), CustomMessage(custom(v), key))
  }

  /** The errors `validateField` reports for one field, as a sequence (empty
      where the source returns `null`). */
  function FieldErrors(key: string, fs: FieldSchema, v: Value): (errors: seq<ValidationError>)
    ensures |errors| <= 2
    ensures forall e :: e in errors ==> e.key == key
    ensures errors == [] <==> Conforms(fs, v)
  {
    if IsMissingRequiredField(fs.required, v) then
      [CreateMissingFieldError(key, fs.expectedType)]
    else if !v.Undefined? then
      (if !IsCorrectType(fs.expectedType, v) then [CreateTypeError(key, fs.expectedType, TypeOf(v))] else [])
      + (if fs.custom.Some? && !PassesCustomValidation(fs.custom.value, v)
         then [CreateCustomValidationError(key, fs.expectedType, v, fs.custom.value)]
         else [])
    else
      []
  }

  /** The result `validate` returns for a schema and an object. */
  function Outcome(entries: SchemaEntries, obj: map<string, Value>): ValidationResult
  {
    MakeResult(Collect(entries, obj, FieldErrors))
  }

  class Schema {
    const schema: SchemaEntries

    constructor(schema: SchemaEntries)
      ensures this.schema == schema
    {
      this.schema := schema;
    }

    /** Builds the field's error list by pushing, and returns `null` (here
        `None`) when nothing was pushed. */
    method ValidateField(key: string, fieldSchema: FieldSchema, actualValue: Value) returns (fieldErrors: Option<seq<ValidationError>>)
      ensures fieldErrors.None? <==> Conforms(fieldSchema, actualValue)
      ensures fieldErrors.Some? ==> fieldErrors.value == FieldErrors(key, fieldSchema, actualValue)
    {
      var errors: seq<ValidationError> := [];
      if IsMissingRequiredField(fieldSchema.required, actualValue) {
        errors := errors + [CreateMissingFieldError(key, fieldSchema.expectedType)];
      } else if !actualValue.Undefined? {
        if !IsCorrectType(fieldSchema.expectedType, actualValue) {
          errors := errors + [CreateTypeError(key, fieldSchema.expectedType, TypeOf(actualValue))];
        }
        if fieldSchema.custom.Some? && !PassesCustomValidation(fieldSchema.custom.value, actualValue) {
          errors := errors + [CreateCustomValidationError(key, fieldSchema.expectedType, actualValue, fieldSchema.custom.value)];
        }
      }
      fieldErrors := if |errors| > 0 then Some(errors) else None;
    }

    /** Walks the schema in order and appends every field's errors. */
    method Validate(obj: map<string, Value>) returns (r: ValidationResult)
      ensures r == Outcome(schema, obj)
      ensures r.valid <==> forall i :: 0 <= i < |schema| ==> Conforms(schema[i].1, Lookup(obj, schema[i].0))
      ensures r.valid <==> r.errors.None?
    {
      var errors: seq<ValidationError> := [];
      var i := 0;
      while i < |schema|
        invariant 0 <= i <= |schema|
        invariant errors == Collect(schema[..i], obj, FieldErrors)
      {
        var (key, fieldSchema) := schema[i];
        var actualValue := Lookup(obj, key);
        var fieldErrors := ValidateField(key, fieldSchema, actualValue);
        if fieldErrors.Some? {
          errors := errors + fieldErrors.value;
        }
        CollectStep(schema, obj, FieldErrors, i);
        i := i + 1;
      }
      assert schema[..i] == schema;
      r := MakeResult(errors);
      ValidIffAllConform(schema, obj);
    }
  }

  lemma FieldErrorsKeyFaithful()
    ensures KeyFaithful(FieldErrors)
  {
    forall k, fs, v, e | e in FieldErrors(k, fs, v) ensures e.key == k {
    }
  }

  /** `valid` holds exactly when every schema field conforms to its rule; the
      `errors` member is then absent. */
  lemma ValidIffAllConform(entries: SchemaEntries, obj: map<string, Value>)
    ensures Outcome(entries, obj).valid <==> forall i :: 0 <= i < |entries| ==> Conforms(entries[i].1, Lookup(obj, entries[i].0))
    ensures Outcome(entries, obj).valid <==> Outcome(entries, obj).errors.None?
  {
    CollectEmptyIff(entries, obj, FieldErrors);
    forall i | 0 <= i < |entries|
      ensures FieldAt(entries, obj, FieldErrors, i) == [] <==> Conforms(entries[i].1, Lookup(obj, entries[i].0))
    {
    }
  }

  /** Every reported error names a schema key; keys of the object outside the
      schema never produce errors and do not influence the result. */
  lemma OnlySchemaKeysMatter(entries: SchemaEntries, obj: map<string, Value>, other: map<string, Value>)
    requires forall i :: 0 <= i < |entries| ==> Lookup(obj, entries[i].0) == Lookup(other, entries[i].0)
    ensures forall e :: e in ErrorsOf(Outcome(entries, obj)) ==> e.key in Keys(entries)
    ensures Outcome(entries, obj) == Outcome(entries, other)
  {
    FieldErrorsKeyFaithful();
    CollectReadsSchemaKeysOnly(entries, obj, other, FieldErrors);
  }

  /** The errors reported under a schema key are exactly those its own field
      produced. */
  lemma ErrorsForKey(entries: SchemaEntries, obj: map<string, Value>, i: nat)
    requires DistinctKeys(entries) && i < |entries|
    ensures ErrorsWithKey(ErrorsOf(Outcome(entries, obj)), entries[i].0)
         == FieldErrors(entries[i].0, entries[i].1, Lookup(obj, entries[i].0))
  {
    FieldErrorsKeyFaithful();
    ErrorsForField(entries, obj, FieldErrors, i);
  }

  /** Errors appear in schema order, and each key's errors are adjacent. */
  lemma ErrorsInSchemaOrder(entries: SchemaEntries, obj: map<string, Value>, i: nat, j: nat, p: nat, q: nat)
    requires DistinctKeys(entries) && i < j < |entries|
    requires p < |ErrorsOf(Outcome(entries, obj))| && q < |ErrorsOf(Outcome(entries, obj))|
    requires ErrorsOf(Outcome(entries, obj))[p].key == entries[i].0
    requires ErrorsOf(Outcome(entries, obj))[q].key == entries[j].0
    ensures p < q
  {
    FieldErrorsKeyFaithful();
    ErrorsFollowSchemaOrder(entries, obj, FieldErrors, i, j, p, q);
  }

  lemma ErrorsOfOneKeyAdjacent(entries: SchemaEntries, obj: map<string, Value>, p: nat, m: nat, q: nat)
    requires DistinctKeys(entries)
    requires p < m < q < |ErrorsOf(Outcome(entries, obj))|
    requires ErrorsOf(Outcome(entries, obj))[p].key == ErrorsOf(Outcome(entries, obj))[q].key
    ensures ErrorsOf(Outcome(entries, obj))[m].key == ErrorsOf(Outcome(entries, obj))[p].key
  {
    FieldErrorsKeyFaithful();
    FieldErrorsContiguous(entries, obj, FieldErrors, p, m, q);
  }

  /** A required field that is `undefined` or `null` yields exactly the
      missing-field error, and neither a type nor a custom error. */
  lemma MissingRequiredReported(entries: SchemaEntries, obj: map<string, Value>, i: nat)
    requires DistinctKeys(entries) && i < |entries|
    requires entries[i].1.required
    requires Lookup(obj, entries[i].0).Undefined? || Lookup(obj, entries[i].0).Null?
    ensures ErrorsWithKey(ErrorsOf(Outcome(entries, obj)), entries[i].0)
         == [ValidationError(entries[i].0, entries[i].1.expectedType, None,
                             "The field '" + entries[i].0 + "' is required but was not provided.")]
  {
    ErrorsForKey(entries, obj, i);
  }

  /** An optional field that is `undefined` yields no error, whatever its
      custom callback would say. */
  lemma AbsentOptionalSkipped(entries: SchemaEntries, obj: map<string, Value>, i: nat)
    requires DistinctKeys(entries) && i < |entries|
    requires !entries[i].1.required && Lookup(obj, entries[i].0).Undefined?
    ensures ErrorsWithKey(ErrorsOf(Outcome(entries, obj)), entries[i].0) == []
  {
    ErrorsForKey(entries, obj, i);
  }

  /** A present value of the wrong `typeof` is reported first with a type
      error naming both types; a non-required `null` is present with type
      "object". */
  lemma WrongTypeReported(entries: SchemaEntries, obj: map<string, Value>, i: nat)
    requires DistinctKeys(entries) && i < |entries|
    requires !Lookup(obj, entries[i].0).Undefined?
    requires !(entries[i].1.required && Lookup(obj, entries[i].0).Null?)
    requires TypeOf(Lookup(obj, entries[i].0)) != entries[i].1.expectedType
    ensures var errors := ErrorsWithKey(ErrorsOf(Outcome(entries, obj)), entries[i].0);
      var (key, t, a) := (entries[i].0, entries[i].1.expectedType, TypeOf(Lookup(obj, entries[i].0)));
      1 <= |errors| <= 2 &&
      errors[0] == ValidationError(key, t, Some(a),
                                   "Expected type '" + t + "' but found type '" + a + "' for key '" + key + "'.")
  {
    ErrorsForKey(entries, obj, i);
  }

  /** A present value that the custom callback does not accept with exactly
      `true` is reported last with a custom error: the callback's string
      verbatim, or the generic message when it returned a boolean. */
  lemma CustomFailureReported(entries: SchemaEntries, obj: map<string, Value>, i: nat)
    requires DistinctKeys(entries) && i < |entries|
    requires !Lookup(obj, entries[i].0).Undefined?
    requires !(entries[i].1.required && Lookup(obj, entries[i].0).Null?)
    requires entries[i].1.custom.Some?
    requires entries[i].1.custom.value(Lookup(obj, entries[i].0)) != CustomBool(true)
    ensures var errors := ErrorsWithKey(ErrorsOf(Outcome(entries, obj)), entries[i].0);
      var key := entries[i].0;
      var res := entries[i].1.custom.value(Lookup(obj, key));
      1 <= |errors| &&
      errors[|errors| - 1].expectedType == entries[i].1.expectedType &&
      errors[|errors| - 1].actualType == Some(TypeOf(Lookup(obj, key))) &&
      (res.CustomString? ==> errors[|errors| - 1].message == res.s) &&
      (res.CustomBool? ==> errors[|errors| - 1].message == "Custom validation failed for key '" + key + "'.")
  {
    ErrorsForKey(entries, obj, i);
  }

  /** Type and custom checks are not exclusive: a present value of the wrong
      type that the callback also rejects yields two errors, type error first. */
  lemma TypeAndCustomBothReported(entries: SchemaEntries, obj: map<string, Value>, i: nat)
    requires DistinctKeys(entries) && i < |entries|
    requires !Lookup(obj, entries[i].0).Undefined?
    requires !(entries[i].1.required && Lookup(obj, entries[i].0).Null?)
    requires TypeOf(Lookup(obj, entries[i].0)) != entries[i].1.expectedType
    requires entries[i].1.custom.Some?
    requires entries[i].1.custom.value(Lookup(obj, entries[i].0)) != CustomBool(true)
    ensures var errors := ErrorsWithKey(ErrorsOf(Outcome(entries, obj)), entries[i].0);
      |errors| == 2 && errors[0].message == TypeMessage(entries[i].1.expectedType, TypeOf(Lookup(obj, entries[i].0)), entries[i].0)
  {
    ErrorsForKey(entries, obj, i);
  }

  /** A field contributes at most two errors, so there are at most twice as
      many errors as schema fields. */
  lemma ErrorCountBound(entries: SchemaEntries, obj: map<string, Value>)
    ensures |ErrorsOf(Outcome(entries, obj))| <= 2 * |entries|
  {
    CollectLengthBound(entries, obj, FieldErrors, 2);
  }

  /** The user schema of the test suite, with its two callbacks as parameters
      (a numeric comparison and an email pattern are not modelled). */
  function UserSchema(age: Value -> CustomResult, email: Value -> CustomResult): SchemaEntries
  {
    [("name", FieldSchema("string", true, None)),
     ("age", FieldSchema("number", true, Some(age))),
     ("email", FieldSchema("string", false, Some(email)))]
  }

  /** A conforming user object is valid and carries no `errors` member. */
  lemma UserScenarioValid(age: Value -> CustomResult, email: Value -> CustomResult)
    requires age(Num(25)) == CustomBool(true)
    requires email(Str("alice@example.com")) == CustomBool(true)
    ensures Outcome(UserSchema(age, email), map["name" := Str("Alice"), "age" := Num(25), "email" := Str("alice@example.com")])
         == ValidationResult(true, None)
  {
    var entries := UserSchema(age, email);
    var obj := map["name" := Str("Alice"), "age" := Num(25), "email" := Str("alice@example.com")];
    ValidIffAllConform(entries, obj);
  }

  /** A negative age and a malformed email give two custom errors, `age` then
      `email`, each with the callback's message. */
  lemma UserScenarioInvalid(age: Value -> CustomResult, email: Value -> CustomResult)
    requires age(Num(-5)) == CustomString("Age must be a positive number.")
    requires email(Str("alice-at-example.com")) == CustomString("Invalid email format.")
    ensures Outcome(UserSchema(age, email), map["name" := Str("Alice"), "age" := Num(-5), "email" := Str("alice-at-example.com")])
         == ValidationResult(false, Some([
              ValidationError("age", "number", Some("number"), "Age must be a positive number."),
              ValidationError("email", "string", Some("string"), "Invalid email format.")]))
  {
    var entries := UserSchema(age, email);
    var obj := map["name" := Str("Alice"), "age" := Num(-5), "email" := Str("alice-at-example.com")];
    assert FieldAt(entries, obj, FieldErrors, 0) == [];
    assert FieldAt(entries, obj, FieldErrors, 1) == [ValidationError("age", "number", Some("number"), "Age must be a positive number.")];
    assert FieldAt(entries, obj, FieldErrors, 2) == [ValidationError("email", "string", Some("string"), "Invalid email format.")];
    CollectOfThree(entries, obj, FieldErrors);
    assert Collect(entries, obj, FieldErrors) == [
      ValidationError("age", "number", Some("number"), "Age must be a positive number."),
      ValidationError("email", "string", Some("string"), "Invalid email format.")];
  }
}
