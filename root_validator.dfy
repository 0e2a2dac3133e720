/**
 The `Schema` class of the top-level schemaValidator.ts. `validate` is one
 loop whose body is a single `if / else if / else if` chain: the required
 check, then the type check, then the custom check. The branches exclude each
 other, so a field reports at most one error and the custom callback only
 sees present values of the declared type.
 */
module RootValidator {
  import opened JsValues
  import opened SchemaTypes
  import opened Aggregation

  /** The error, if any, that one pass of the loop body pushes for a field. */
  function FieldErrors(key: string, fs: FieldSchema, v: Value): (errors: seq<ValidationError>)
    ensures |errors| <= 1
    ensures forall e :: e in errors ==> e.key == key
    ensures errors == [] <==> Conforms(fs, v)
  {
    var actualType := TypeOf(v);
    if fs.required && (v.Undefined? || v.Null?) then
      [ValidationError(key, fs.expectedType, None, MissingMessage(key))]
    else if !v.Undefined? && actualType != fs.expectedType then
      [ValidationError(key, fs.expectedType, Some(actualType), TypeMessage(fs.expectedType, actualType, key))]
    else if fs.custom.Some? && !v.Undefined? then
      var res := fs.custom.value(v);
      if res != CustomBool(true) then
        [ValidationError(key, fs.expectedType, Some(actualType), CustomMessage(res, key))]
      else
        []
    else
      []
  }

  /** The result `validate` returns for a schema and an object. */
  function Outcome(entries: SchemaEntries, obj: map<string, Value>): ValidationResult
  {
    MakeResult(Collect(entries, obj, FieldErrors))
  }

  class Schema {
    const schema: SchemaEntries

    constructor(schema: SchemaEntries)
      ensures this.schema == schema
    {
      this.schema := schema;
    }

    /** Walks the schema in order, pushing at most one error per field. */
    method Validate(obj: map<string, Value>) returns (r: ValidationResult)
      ensures r == Outcome(schema, obj)
      ensures r.valid <==> forall i :: 0 <= i < |schema| ==> Conforms(schema[i].1, Lookup(obj, schema[i].0))
      ensures r.valid <==> r.errors.None?
    {
      var errors: seq<ValidationError> := [];
      var i := 0;
      while i < |schema|
        invariant 0 <= i <= |schema|
        invariant errors == Collect(schema[..i], obj, FieldErrors)
      {
        var (key, fieldSchema) := schema[i];
        var FieldSchema(expectedType, required, custom) := fieldSchema;
        var actualValue := Lookup(obj, key);
        var actualType := TypeOf(actualValue);
        ghost var before := errors;
        if required && (actualValue.Undefined? || actualValue.Null?) {
          errors := errors + [ValidationError(key, expectedType, None, MissingMessage(key))];
        } else if !actualValue.Undefined? && actualType != expectedType {
          errors := errors + [ValidationError(key, expectedType, Some(actualType), TypeMessage(expectedType, actualType, key))];
        } else if custom.Some? && !actualValue.Undefined? {
          var customValidationResult := custom.value(actualValue);
          if customValidationResult != CustomBool(true) {
            errors := errors + [ValidationError(key, expectedType, Some(actualType), CustomMessage(customValidationResult, key))];
          }
        }
        assert errors == before + FieldErrors(key, fieldSchema, actualValue);
        CollectStep(schema, obj, FieldErrors, i);
        i := i + 1;
      }
      assert schema[..i] == schema;
      r := MakeResult(errors);
      ValidIffAllConform(schema, obj);
    }
  }

  /** `validate` only reads the schema and the object: validating the same
      object twice gives equal results. */
  method RepeatedValidation(s: Schema, obj: map<string, Value>) returns (first: ValidationResult, second: ValidationResult)
    ensures first == second
    ensures first == Outcome(s.schema, obj)
  {
    first := s.Validate(obj);
    second := s.Validate(obj);
  }

  lemma FieldErrorsKeyFaithful()
    ensures KeyFaithful(FieldErrors)
  {
    forall k, fs, v, e | e in FieldErrors(k, fs, v) ensures e.key == k {
    }
  }

  /** `valid` holds exactly when every schema field conforms to its rule; the
      `errors` member is then absent. */
  lemma ValidIffAllConform(entries: SchemaEntries, obj: map<string, Value>)
    ensures Outcome(entries, obj).valid <==> forall i :: 0 <= i < |entries| ==> Conforms(entries[i].1, Lookup(obj, entries[i].0))
    ensures Outcome(entries, obj).valid <==> Outcome(entries, obj).errors.None?
  {
    CollectEmptyIff(entries, obj, FieldErrors);
    forall i | 0 <= i < |entries|
      ensures FieldAt(entries, obj, FieldErrors, i) == [] <==> Conforms(entries[i].1, Lookup(obj, entries[i].0))
    {
    }
  }

  /** Every reported error names a schema key; keys of the object outside the
      schema never produce errors and do not influence the result. */
  lemma OnlySchemaKeysMatter(entries: SchemaEntries, obj: map<string, Value>, other: map<string, Value>)
    requires forall i :: 0 <= i < |entries| ==> Lookup(obj, entries[i].0) == Lookup(other, entries[i].0)
    ensures forall e :: e in ErrorsOf(Outcome(entries, obj)) ==> e.key in Keys(entries)
    ensures Outcome(entries, obj) == Outcome(entries, other)
  {
    FieldErrorsKeyFaithful();
    CollectReadsSchemaKeysOnly(entries, obj, other, FieldErrors);
  }

  /** The errors reported under a schema key are exactly those its own field
      produced: at most one. */
  lemma ErrorsForKey(entries: SchemaEntries, obj: map<string, Value>, i: nat)
    requires DistinctKeys(entries) && i < |entries|
    ensures ErrorsWithKey(ErrorsOf(Outcome(entries, obj)), entries[i].0)
         == FieldErrors(entries[i].0, entries[i].1, Lookup(obj, entries[i].0))
    ensures |ErrorsWithKey(ErrorsOf(Outcome(entries, obj)), entries[i].0)| <= 1
  {
    FieldErrorsKeyFaithful();
    ErrorsForField(entries, obj, FieldErrors, i);
  }

  /** Errors appear in schema order. */
  lemma ErrorsInSchemaOrder(entries: SchemaEntries, obj: map<string, Value>, i: nat, j: nat, p: nat, q: nat)
    requires DistinctKeys(entries) && i < j < |entries|
    requires p < |ErrorsOf(Outcome(entries, obj))| && q < |ErrorsOf(Outcome(entries, obj))|
    requires ErrorsOf(Outcome(entries, obj))[p].key == entries[i].0
    requires ErrorsOf(Outcome(entries, obj))[q].key == entries[j].0
    ensures p < q
  {
    FieldErrorsKeyFaithful();
    ErrorsFollowSchemaOrder(entries, obj, FieldErrors, i, j, p, q);
  }

  /** A required field that is `undefined` or `null` yields exactly the
      missing-field error; the type and custom checks are skipped, so the
      callback plays no part. */
  lemma MissingRequiredReported(entries: SchemaEntries, obj: map<string, Value>, i: nat)
    requires DistinctKeys(entries) && i < |entries|
    requires entries[i].1.required
    requires Lookup(obj, entries[i].0).Undefined? || Lookup(obj, entries[i].0).Null?
    ensures ErrorsWithKey(ErrorsOf(Outcome(entries, obj)), entries[i].0)
         == [ValidationError(entries[i].0, entries[i].1.expectedType, None,
                             "The field '" + entries[i].0 + "' is required but was not provided.")]
    ensures FieldErrors(entries[i].0, entries[i].1, Lookup(obj, entries[i].0))
         == FieldErrors(entries[i].0, entries[i].1.(custom := None), Lookup(obj, entries[i].0))
  {
    ErrorsForKey(entries, obj, i);
  }

  /** An optional field that is `undefined` yields no error, and its custom
      callback is not consulted. */
  lemma AbsentOptionalSkipped(entries: SchemaEntries, obj: map<string, Value>, i: nat)
    requires DistinctKeys(entries) && i < |entries|
    requires !entries[i].1.required && Lookup(obj, entries[i].0).Undefined?
    ensures ErrorsWithKey(ErrorsOf(Outcome(entries, obj)), entries[i].0) == []
    ensures FieldErrors(entries[i].0, entries[i].1, Lookup(obj, entries[i].0))
         == FieldErrors(entries[i].0, entries[i].1.(custom := None), Lookup(obj, entries[i].0))
  {
    ErrorsForKey(entries, obj, i);
  }

  /** A present value of the wrong `typeof` yields exactly one type error
      naming both types, and the custom callback is not consulted. */
  lemma WrongTypeReported(entries: SchemaEntries, obj: map<string, Value>, i: nat)
    requires DistinctKeys(entries) && i < |entries|
    requires !Lookup(obj, entries[i].0).Undefined?
    requires !(entries[i].1.required && Lookup(obj, entries[i].0).Null?)
    requires TypeOf(Lookup(obj, entries[i].0)) != entries[i].1.expectedType
    ensures var (key, t, a) := (entries[i].0, entries[i].1.expectedType, TypeOf(Lookup(obj, entries[i].0)));
      ErrorsWithKey(ErrorsOf(Outcome(entries, obj)), key)
      == [ValidationError(key, t, Some(a), "Expected type '" + t + "' but found type '" + a + "' for key '" + key + "'.")]
    ensures FieldErrors(entries[i].0, entries[i].1, Lookup(obj, entries[i].0))
         == FieldErrors(entries[i].0, entries[i].1.(custom := None), Lookup(obj, entries[i].0))
  {
    ErrorsForKey(entries, obj, i);
  }

  /** A present value of the declared type is reported iff its callback does
      not return exactly `true`; the message is the callback's string
      verbatim, or the generic one when it returned a boolean. */
  lemma CustomVerdictReported(entries: SchemaEntries, obj: map<string, Value>, i: nat)
    requires DistinctKeys(entries) && i < |entries|
    requires !Lookup(obj, entries[i].0).Undefined?
    requires !(entries[i].1.required && Lookup(obj, entries[i].0).Null?)
    requires TypeOf(Lookup(obj, entries[i].0)) == entries[i].1.expectedType
    requires entries[i].1.custom.Some?
    ensures var (key, t) := (entries[i].0, entries[i].1.expectedType);
      var res := entries[i].1.custom.value(Lookup(obj, key));
      var errors := ErrorsWithKey(ErrorsOf(Outcome(entries, obj)), key);
      (res == CustomBool(true) ==> errors == []) &&
      (res.CustomString? ==> errors == [ValidationError(key, t, Some(t), res.s)]) &&
      (res == CustomBool(false) ==> errors == [ValidationError(key, t, Some(t), "Custom validation failed for key '" + key + "'.")])
  {
    ErrorsForKey(entries, obj, i);
  }

  /** Each schema field contributes at most one error. */
  lemma ErrorCountBound(entries: SchemaEntries, obj: map<string, Value>)
    ensures |ErrorsOf(Outcome(entries, obj))| <= |entries|
  {
    CollectLengthBound(entries, obj, FieldErrors, 1);
  }

  /** A user schema with no custom callbacks. */
  function PlainUserSchema(): SchemaEntries
  {
    [("name", FieldSchema("string", true, None)),
     ("age", FieldSchema("number", true, None)),
     ("email", FieldSchema("string", false, None))]
  }

  /** A missing required name is the only error. */
  lemma MissingNameScenario()
    ensures Outcome(PlainUserSchema(), map["age" := Num(25)])
         == ValidationResult(false, Some([
              ValidationError("name", "string", None, MissingMessage("name"))]))
  {
    var entries, obj := PlainUserSchema(), map["age" := Num(25)];
    var missing := ValidationError("name", "string", None, MissingMessage("name"));
    CollectOfThree(entries, obj, FieldErrors);
    assert FieldAt(entries, obj, FieldErrors, 0) == [missing];
    assert FieldAt(entries, obj, FieldErrors, 1) == [];
    assert FieldAt(entries, obj, FieldErrors, 2) == [];
    assert Collect(entries, obj, FieldErrors) == [missing];
  }

  /** An age given as a string is the only error; the absent email is fine. */
  lemma WrongAgeTypeScenario()
    ensures Outcome(PlainUserSchema(), map["name" := Str("Alice"), "age" := Str("twenty-five")])
         == ValidationResult(false, Some([
              ValidationError("age", "number", Some("string"), TypeMessage("number", "string", "age"))]))
  {
    var entries, obj := PlainUserSchema(), map["name" := Str("Alice"), "age" := Str("twenty-five")];
    var mismatch := ValidationError("age", "number", Some("string"), TypeMessage("number", "string", "age"));
    CollectOfThree(entries, obj, FieldErrors);
    assert FieldAt(entries, obj, FieldErrors, 0) == [];
    assert FieldAt(entries, obj, FieldErrors, 1) == [mismatch];
    assert FieldAt(entries, obj, FieldErrors, 2) == [];
    assert Collect(entries, obj, FieldErrors) == [mismatch];
  }
}
