/**
 How the two copies of `validate` relate. The top-level copy reports, for each
 field, exactly the first error the src/ copy reports for it. They therefore
 always agree on `valid`, and they return identical results unless some field
 is both of the wrong type and rejected by its custom callback, which only
 the src/ copy reports twice.
 */
module Comparison {
  import opened JsValues
  import opened SchemaTypes
  import opened Aggregation
  import Src = SrcValidator
  import Root = RootValidator

  /** At most the first element of a sequence. */
  function FirstOnly(errors: seq<ValidationError>): seq<ValidationError>
  {
    if |errors| <= 1 then errors else errors[..1]
  }

  /** A present value of the wrong type that the custom callback also rejects. */
  predicate DoublyRejected(fs: FieldSchema, v: Value)
  {
    && !v.Undefined?
    && !(fs.required && v.Null?)
    && TypeOf(v) != fs.expectedType
    && fs.custom.Some?
    && fs.custom.value(v) != CustomBool(true)
  }

  /** Per field, the if/else-if chain keeps exactly the first error of the two
      independent checks; the src/ copy reports two errors exactly for a
      doubly rejected value. */
  lemma RootKeepsFirstSrcError(key: string, fs: FieldSchema, v: Value)
    ensures Root.FieldErrors(key, fs, v) == FirstOnly(Src.FieldErrors(key, fs, v))
    ensures |Src.FieldErrors(key, fs, v)| == 2 <==> DoublyRejected(fs, v)
  {
  }

  /** Without custom callbacks both copies return identical results. */
  lemma SameResultWithoutCustom(entries: SchemaEntries, obj: map<string, Value>)
    requires forall i :: 0 <= i < |entries| ==> entries[i].1.custom.None?
    ensures Src.Outcome(entries, obj) == Root.Outcome(entries, obj)
  {
    forall i | 0 <= i < |entries|
      ensures FieldAt(entries, obj, Src.FieldErrors, i) == FieldAt(entries, obj, Root.FieldErrors, i)
    {
      RootKeepsFirstSrcError(entries[i].0, entries[i].1, Lookup(obj, entries[i].0));
    }
    CollectAgree(entries, obj, Src.FieldErrors, Root.FieldErrors);
  }

  /** Both copies return identical results exactly when no schema field holds
      a doubly rejected value. */
  lemma SameResultIffNoDoubleRejection(entries: SchemaEntries, obj: map<string, Value>)
    ensures Src.Outcome(entries, obj) == Root.Outcome(entries, obj)
        <==> forall i :: 0 <= i < |entries| ==> !DoublyRejected(entries[i].1, Lookup(obj, entries[i].0))
  {
    forall i | 0 <= i < |entries|
      ensures FieldAt(entries, obj, Root.FieldErrors, i) == FirstOnly(FieldAt(entries, obj, Src.FieldErrors, i))
      ensures |FieldAt(entries, obj, Src.FieldErrors, i)| == 2 <==> DoublyRejected(entries[i].1, Lookup(obj, entries[i].0))
    {
      RootKeepsFirstSrcError(entries[i].0, entries[i].1, Lookup(obj, entries[i].0));
    }
    if i :| 0 <= i < |entries| && DoublyRejected(entries[i].1, Lookup(obj, entries[i].0)) {
      CollectStrictlyShorter(entries, obj, Src.FieldErrors, Root.FieldErrors, i);
      var srcErrors := Collect(entries, obj, Src.FieldErrors);
      var rootErrors := Collect(entries, obj, Root.FieldErrors);
      assert |rootErrors| < |srcErrors|;
      assert Src.Outcome(entries, obj) == ValidationResult(false, Some(srcErrors));
      assert Root.Outcome(entries, obj) != Src.Outcome(entries, obj);
    } else {
      CollectAgree(entries, obj, Src.FieldErrors, Root.FieldErrors);
    }
  }

  /** Whatever the callbacks, both copies agree on `valid`. */
  lemma SameValidity(entries: SchemaEntries, obj: map<string, Value>)
    ensures Src.Outcome(entries, obj).valid == Root.Outcome(entries, obj).valid
  {
    Src.ValidIffAllConform(entries, obj);
    Root.ValidIffAllConform(entries, obj);
  }

  /** A string age rejected by the age callback: the src/ copy reports a type
      error and the callback's message, the top-level copy only the type error. */
  lemma StringAgeDiverges(age: Value -> CustomResult)
    requires age(Str("twenty-five")) == CustomString("Age must be a positive number.")
    ensures var entries := [("age", FieldSchema("number", true, Some(age)))];
      var obj := map["age" := Str("twenty-five")];
      && ErrorsOf(Src.Outcome(entries, obj)) == [
           ValidationError("age", "number", Some("string"), TypeMessage("number", "string", "age")),
           ValidationError("age", "number", Some("string"), "Age must be a positive number.")]
      && ErrorsOf(Root.Outcome(entries, obj)) == [
           ValidationError("age", "number", Some("string"), TypeMessage("number", "string", "age"))]
  {
    var entries := [("age", FieldSchema("number", true, Some(age)))];
    var obj := map["age" := Str("twenty-five")];
    assert entries[..0] == [];
    assert Collect(entries, obj, Src.FieldErrors) == FieldAt(entries, obj, Src.FieldErrors, 0);
    assert Collect(entries, obj, Root.FieldErrors) == FieldAt(entries, obj, Root.FieldErrors, 0);
  }
}
