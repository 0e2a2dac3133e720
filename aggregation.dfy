/**
 The accumulation policy shared by both copies of `validate`: walk the schema
 in its iteration order, look each key up in the object, and append the errors
 the per-field check reports. The per-field check is a parameter, so each copy
 instantiates `Collect` with its own rule and inherits the lemmas below.
 */
module Aggregation {
  import opened JsValues
  import opened SchemaTypes

  /** A per-field check: key, rule and the value read from the object. */
  type FieldCheck = (string, FieldSchema, Value) -> seq<ValidationError>

  /** The check only ever reports errors under the key it was given. */
  ghost predicate KeyFaithful(field: FieldCheck)
  {
    forall k, fs, v, e :: e in field(k, fs, v) ==> e.key == k
  }

  /** The errors the `i`-th schema field contributes. */
  function FieldAt(entries: SchemaEntries, obj: map<string, Value>, field: FieldCheck, i: nat): seq<ValidationError>
    requires i < |entries|
  {
    field(entries[i].0, entries[i].1, Lookup(obj, entries[i].0))
  }

  /** The errors accumulated over the whole schema, in iteration order. */
  function Collect(entries: SchemaEntries, obj: map<string, Value>, field: FieldCheck): (errors: seq<ValidationError>)
    ensures KeyFaithful(field) ==> forall e :: e in errors ==> e.key in Keys(entries)
    decreases |entries|
  {
    if |entries| == 0 then []
    else
      var n := |entries| - 1;
      var prefix := Collect(entries[..n], obj, field);
      assert Keys(entries[..n]) <= Keys(entries) by {
        forall k | k in Keys(entries[..n]) ensures k in Keys(entries) {
          var i :| 0 <= i < n && entries[..n][i].0 == k;
          assert entries[i].0 == k;
        }
      }
      prefix + FieldAt(entries, obj, field, n)
  }

  /** One more loop iteration appends the next field's errors. */
  lemma CollectStep(entries: SchemaEntries, obj: map<string, Value>, field: FieldCheck, i: nat)
    requires i < |entries|
    ensures Collect(entries[..i + 1], obj, field) == Collect(entries[..i], obj, field) + FieldAt(entries, obj, field, i)
  {
    assert entries[..i + 1][..i] == entries[..i];
    assert FieldAt(entries[..i + 1], obj, field, i) == FieldAt(entries, obj, field, i);
  }

  /** A three-field schema accumulates the three fields' errors in order. */
  lemma CollectOfThree(entries: SchemaEntries, obj: map<string, Value>, field: FieldCheck)
    requires |entries| == 3
    ensures Collect(entries, obj, field)
         == FieldAt(entries, obj, field, 0) + FieldAt(entries, obj, field, 1) + FieldAt(entries, obj, field, 2)
  {
    assert entries[..0] == [];
    CollectStep(entries, obj, field, 0);
    CollectStep(entries, obj, field, 1);
    CollectStep(entries, obj, field, 2);
    assert entries[..3] == entries;
  }

  lemma {:induction false} CollectAppend(a: SchemaEntries, b: SchemaEntries, obj: map<string, Value>, field: FieldCheck)
    ensures Collect(a + b, obj, field) == Collect(a, obj, field) + Collect(b, obj, field)
    decreases |b|
  {
    if |b| == 0 {
      assert a + b == a;
    } else {
      var n := |b| - 1;
      assert (a + b)[..|a + b| - 1] == a + b[..n];
      CollectAppend(a, b[..n], obj, field);
      assert FieldAt(a + b, obj, field, |a + b| - 1) == FieldAt(b, obj, field, n);
    }
  }

  /** The `i`-th field's errors form one block, after those of every earlier
      field and before those of every later one. */
  lemma CollectBlock(entries: SchemaEntries, obj: map<string, Value>, field: FieldCheck, i: nat)
    requires i < |entries|
    ensures Collect(entries, obj, field)
         == Collect(entries[..i], obj, field) + FieldAt(entries, obj, field, i) + Collect(entries[i + 1..], obj, field)
  {
    assert entries == entries[..i + 1] + entries[i + 1..];
    CollectAppend(entries[..i + 1], entries[i + 1..], obj, field);
    assert entries[..i + 1][..i] == entries[..i];
  }

  lemma KeysOfDistinctSlice(entries: SchemaEntries, lo: nat, hi: nat, i: nat)
    requires DistinctKeys(entries) && lo <= hi <= |entries| && i < |entries|
    requires i < lo || hi <= i
    ensures entries[i].0 !in Keys(entries[lo..hi])
  {
    forall m | 0 <= m < hi - lo ensures entries[lo..hi][m].0 != entries[i].0 {
      assert entries[lo..hi][m] == entries[lo + m];
    }
  }

  /** Under distinct keys, the errors reported for the `i`-th key are exactly
      the errors its own field check produced. */
  lemma ErrorsForField(entries: SchemaEntries, obj: map<string, Value>, field: FieldCheck, i: nat)
    requires KeyFaithful(field) && DistinctKeys(entries) && i < |entries|
    ensures ErrorsWithKey(Collect(entries, obj, field), entries[i].0) == FieldAt(entries, obj, field, i)
  {
    var key := entries[i].0;
    var before, here, after := Collect(entries[..i], obj, field), FieldAt(entries, obj, field, i), Collect(entries[i + 1..], obj, field);
    CollectBlock(entries, obj, field, i);
    KeysOfDistinctSlice(entries, 0, i, i);
    assert entries[0..i] == entries[..i];
    KeysOfDistinctSlice(entries, i + 1, |entries|, i);
    assert entries[i + 1..|entries|] == entries[i + 1..];
    ErrorsWithKeyAppend(before + here, after, key);
    ErrorsWithKeyAppend(before, here, key);
    ErrorsWithKeyNone(before, key);
    ErrorsWithKeyAll(here, key);
    ErrorsWithKeyNone(after, key);
  }

  /** Errors reported for an earlier schema key precede every error reported
      for a later one. */
  lemma ErrorsFollowSchemaOrder(entries: SchemaEntries, obj: map<string, Value>, field: FieldCheck, i: nat, j: nat, p: nat, q: nat)
    requires KeyFaithful(field) && DistinctKeys(entries)
    requires i < j < |entries|
    requires p < |Collect(entries, obj, field)| && q < |Collect(entries, obj, field)|
    requires Collect(entries, obj, field)[p].key == entries[i].0
    requires Collect(entries, obj, field)[q].key == entries[j].0
    ensures p < q
  {
    var errors := Collect(entries, obj, field);
    var before, here, after := Collect(entries[..j], obj, field), FieldAt(entries, obj, field, j), Collect(entries[j + 1..], obj, field);
    CollectBlock(entries, obj, field, j);
    KeysOfDistinctSlice(entries, j + 1, |entries|, i);
    assert entries[j + 1..|entries|] == entries[j + 1..];
    KeysOfDistinctSlice(entries, 0, j, j);
    assert entries[0..j] == entries[..j];
    forall x | |before| <= x < |errors| ensures errors[x].key != entries[i].0 {
      assert errors[x] == (here + after)[x - |before|];
      assert errors[x] in here || errors[x] in after;
    }
    forall x | 0 <= x < |before| ensures errors[x].key != entries[j].0 {
      assert errors[x] == before[x];
      assert errors[x] in before;
    }
  }

  /** All errors reported for one key sit next to each other. */
  lemma FieldErrorsContiguous(entries: SchemaEntries, obj: map<string, Value>, field: FieldCheck, p: nat, m: nat, q: nat)
    requires KeyFaithful(field) && DistinctKeys(entries)
    requires p < m < q < |Collect(entries, obj, field)|
    requires Collect(entries, obj, field)[p].key == Collect(entries, obj, field)[q].key
    ensures Collect(entries, obj, field)[m].key == Collect(entries, obj, field)[p].key
  {
    var errors := Collect(entries, obj, field);
    assert errors[p] in errors && errors[m] in errors;
    var i :| 0 <= i < |entries| && entries[i].0 == errors[p].key;
    var l :| 0 <= l < |entries| && entries[l].0 == errors[m].key;
    if l < i {
      ErrorsFollowSchemaOrder(entries, obj, field, l, i, m, p);
    } else if i < l {
      ErrorsFollowSchemaOrder(entries, obj, field, i, l, q, m);
    }
  }

  /** Only the values stored under schema keys matter; every other key of the
      object is ignored. */
  lemma {:induction false} CollectReadsSchemaKeysOnly(entries: SchemaEntries, obj1: map<string, Value>, obj2: map<string, Value>, field: FieldCheck)
    requires forall i :: 0 <= i < |entries| ==> Lookup(obj1, entries[i].0) == Lookup(obj2, entries[i].0)
    ensures Collect(entries, obj1, field) == Collect(entries, obj2, field)
    decreases |entries|
  {
    if |entries| > 0 {
      var n := |entries| - 1;
      assert Lookup(obj1, entries[n].0) == Lookup(obj2, entries[n].0);
      CollectReadsSchemaKeysOnly(entries[..n], obj1, obj2, field);
    }
  }

  /** A per-field bound of `n` errors bounds the total by `n` per schema field. */
  lemma {:induction false} CollectLengthBound(entries: SchemaEntries, obj: map<string, Value>, field: FieldCheck, n: nat)
    requires forall k, fs, v :: |field(k, fs, v)| <= n
    ensures |Collect(entries, obj, field)| <= n * |entries|
    decreases |entries|
  {
    if |entries| > 0 {
      CollectLengthBound(entries[..|entries| - 1], obj, field, n);
    }
  }

  /** No error at all exactly when no field reports one. */
  lemma {:induction false} CollectEmptyIff(entries: SchemaEntries, obj: map<string, Value>, field: FieldCheck)
    ensures Collect(entries, obj, field) == [] <==> forall i :: 0 <= i < |entries| ==> FieldAt(entries, obj, field, i) == []
    decreases |entries|
  {
    if |entries| > 0 {
      var n := |entries| - 1;
      CollectEmptyIff(entries[..n], obj, field);
      forall i | 0 <= i < n ensures FieldAt(entries[..n], obj, field, i) == FieldAt(entries, obj, field, i) {
      }
    }
  }

  /** Two checks that agree on every schema field accumulate the same errors. */
  lemma {:induction false} CollectAgree(entries: SchemaEntries, obj: map<string, Value>, f: FieldCheck, g: FieldCheck)
    requires forall i :: 0 <= i < |entries| ==> FieldAt(entries, obj, f, i) == FieldAt(entries, obj, g, i)
    ensures Collect(entries, obj, f) == Collect(entries, obj, g)
    decreases |entries|
  {
    if |entries| > 0 {
      var n := |entries| - 1;
      assert FieldAt(entries, obj, f, n) == FieldAt(entries, obj, g, n);
      forall i | 0 <= i < n ensures FieldAt(entries[..n], obj, f, i) == FieldAt(entries[..n], obj, g, i) {
        assert FieldAt(entries, obj, f, i) == FieldAt(entries, obj, g, i);
      }
      CollectAgree(entries[..n], obj, f, g);
    }
  }

  /** If `g` never reports more than `f` on a field, and strictly fewer on
      field `i`, it accumulates strictly fewer errors overall. */
  lemma {:induction false} CollectStrictlyShorter(entries: SchemaEntries, obj: map<string, Value>, f: FieldCheck, g: FieldCheck, i: nat)
    requires forall j :: 0 <= j < |entries| ==> |FieldAt(entries, obj, g, j)| <= |FieldAt(entries, obj, f, j)|
    requires i < |entries| && |FieldAt(entries, obj, g, i)| < |FieldAt(entries, obj, f, i)|
    ensures |Collect(entries, obj, g)| < |Collect(entries, obj, f)|
  {
    CollectBlock(entries, obj, f, i);
    CollectBlock(entries, obj, g, i);
    forall j | 0 <= j < i ensures |FieldAt(entries[..i], obj, g, j)| <= |FieldAt(entries[..i], obj, f, j)| {
      assert |FieldAt(entries, obj, g, j)| <= |FieldAt(entries, obj, f, j)|;
    }
    CollectShorterOrEqual(entries[..i], obj, f, g);
    var rest := entries[i + 1..];
    forall j | 0 <= j < |rest| ensures |FieldAt(rest, obj, g, j)| <= |FieldAt(rest, obj, f, j)| {
      assert rest[j] == entries[i + 1 + j];
      assert |FieldAt(entries, obj, g, i + 1 + j)| <= |FieldAt(entries, obj, f, i + 1 + j)|;
    }
    CollectShorterOrEqual(rest, obj, f, g);
  }

  lemma {:induction false} CollectShorterOrEqual(entries: SchemaEntries, obj: map<string, Value>, f: FieldCheck, g: FieldCheck)
    requires forall j :: 0 <= j < |entries| ==> |FieldAt(entries, obj, g, j)| <= |FieldAt(entries, obj, f, j)|
    ensures |Collect(entries, obj, g)| <= |Collect(entries, obj, f)|
    decreases |entries|
  {
    if |entries| > 0 {
      var n := |entries| - 1;
      assert |FieldAt(entries, obj, g, n)| <= |FieldAt(entries, obj, f, n)|;
      forall j | 0 <= j < n ensures |FieldAt(entries[..n], obj, g, j)| <= |FieldAt(entries[..n], obj, f, j)| {
        assert |FieldAt(entries, obj, g, j)| <= |FieldAt(entries, obj, f, j)|;
      }
      CollectShorterOrEqual(entries[..n], obj, f, g);
    }
  }
}
