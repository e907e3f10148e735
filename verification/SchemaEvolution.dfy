/**
 Changing the schema of a table that may hold rows: what the evolution check
 accepts, and exactly when an accepted change keeps every stored row valid.
 */
module SchemaEvolution {
  import opened JsonValue
  import opened Schema

  predicate EvolutionAccepted(existing: Schema, updated: Schema, rowCount: nat) {
    rowCount > 0 ==>
      && (forall f :: f in existing ==> f in updated && existing[f].fieldType == updated[f].fieldType)
      && (forall f :: f in updated && f !in existing ==> !Mandatory(updated[f]))
  }

  /** The check as two loops over the fields. */
  method ValidateSchemaEvolution(existing: Schema, updated: Schema, rowCount: nat) returns (ok: bool)
    ensures ok == EvolutionAccepted(existing, updated, rowCount)
  {
    var todo := existing.Keys;
    while todo != {}
      invariant todo <= existing.Keys
      invariant rowCount > 0 ==>
          forall f :: f in existing && f !in todo ==> f in updated && existing[f].fieldType == updated[f].fieldType
      decreases todo
    {
      var f :| f in todo;
      if f !in updated {
        if rowCount > 0 {
          return false;
        }
      } else if rowCount > 0 && existing[f].fieldType != updated[f].fieldType {
        return false;
      }
      todo := todo - {f};
    }
    if rowCount > 0 {
      todo := updated.Keys;
      while todo != {}
        invariant todo <= updated.Keys
        invariant forall f :: f in updated && f !in todo && f !in existing ==> !Mandatory(updated[f])
        decreases todo
      {
        var f :| f in todo;
        if f !in existing && updated[f].required && updated[f].default.None? {
          return false;
        }
        todo := todo - {f};
      }
    }
    ok := true;
  }

  predicate LengthKept(existing: FieldSpec, updated: FieldSpec) {
    existing.fieldType == "string" && updated.maxLength.Some? ==>
      existing.maxLength.Some? && existing.maxLength.value <= updated.maxLength.value
  }

  /** No kept text field gets a tighter limit, and none becomes mandatory that was not. */
  ghost predicate Gentle(existing: Schema, updated: Schema) {
    forall f :: f in existing && f in updated ==>
      LengthKept(existing[f], updated[f]) && (Mandatory(updated[f]) ==> Mandatory(existing[f]))
  }

  /** Every row the old schema accepts is accepted by the new one. */
  ghost predicate KeepsRows(rfc3339: string -> bool, existing: Schema, updated: Schema) {
    forall row: Row :: Conforms(rfc3339, existing, row) ==> Conforms(rfc3339, updated, row)
  }

  lemma GentleKeepsRow(rfc3339: string -> bool, existing: Schema, updated: Schema, rowCount: nat, row: Row)
    requires rowCount > 0 && EvolutionAccepted(existing, updated, rowCount) && Gentle(existing, updated)
    requires Conforms(rfc3339, existing, row)
    ensures Conforms(rfc3339, updated, row)
  {
  }

  // --- The condition is necessary ------------------------------------------------

  function Letters(n: nat): string {
    seq(n, _ => 'a')
  }

  lemma {:induction false} LettersLength(n: nat)
    ensures Utf8Length(Letters(n)) == n
  {
    if n > 0 {
      assert Letters(n)[1..] == Letters(n - 1);
      LettersLength(n - 1);
    }
  }

  /** Some value every field of this kind accepts; `stamp` is a timestamp. */
  function Sample(spec: FieldSpec, stamp: string): Json {
    if spec.fieldType == "string" then Str("")
    else if spec.fieldType == "datetime" then Str(stamp)
    else if spec.fieldType == "boolean" then Bool(false)
    else if spec.fieldType in {"relation", "file"} then Str("x")
    else Int(0)
  }

  function SampleRow(schema: Schema, stamp: string): Row {
    map f | f in schema :: Sample(schema[f], stamp)
  }

  lemma SampleRowConforms(rfc3339: string -> bool, schema: Schema, stamp: string)
    requires ValidSchema(rfc3339, schema) && rfc3339(stamp)
    ensures Conforms(rfc3339, schema, SampleRow(schema, stamp))
  {
    forall f | f in schema ensures ValidFieldValue(rfc3339, schema[f], Sample(schema[f], stamp)) {
      assert ValidFieldType(schema[f]);
    }
  }

  lemma TighterLengthLosesRow(rfc3339: string -> bool, existing: Schema, updated: Schema, stamp: string, f: string)
    requires ValidSchema(rfc3339, existing) && rfc3339(stamp)
    requires f in existing && f in updated && existing[f].fieldType == updated[f].fieldType
    requires !LengthKept(existing[f], updated[f])
    ensures !KeepsRows(rfc3339, existing, updated)
  {
    var n := updated[f].maxLength.value + 1;
    LettersLength(n);
    SampleRowConforms(rfc3339, existing, stamp);
    var row := SampleRow(existing, stamp)[f := Str(Letters(n))];
    assert Conforms(rfc3339, existing, row);
    assert f in row && !ValidFieldValue(rfc3339, updated[f], row[f]);
    assert !Conforms(rfc3339, updated, row);
  }

  lemma NewlyMandatoryLosesRow(rfc3339: string -> bool, existing: Schema, updated: Schema, stamp: string, f: string)
    requires ValidSchema(rfc3339, existing) && rfc3339(stamp)
    requires f in existing && f in updated && Mandatory(updated[f]) && !Mandatory(existing[f])
    ensures !KeepsRows(rfc3339, existing, updated)
  {
    SampleRowConforms(rfc3339, existing, stamp);
    var row := SampleRow(existing, stamp) - {f};
    assert Conforms(rfc3339, existing, row);
    assert !Conforms(rfc3339, updated, row);
  }

  /** An evolution accepted for a table with rows keeps all possible rows if and only if it is gentle. */
  lemma AcceptedKeepsRowsIffGentle(
    rfc3339: string -> bool, existing: Schema, updated: Schema, rowCount: nat, stamp: string)
    requires ValidSchema(rfc3339, existing) && rfc3339(stamp)
    requires rowCount > 0 && EvolutionAccepted(existing, updated, rowCount)
    ensures KeepsRows(rfc3339, existing, updated) <==> Gentle(existing, updated)
  {
    if Gentle(existing, updated) {
      forall row: Row | Conforms(rfc3339, existing, row) ensures Conforms(rfc3339, updated, row) {
        GentleKeepsRow(rfc3339, existing, updated, rowCount, row);
      }
    } else {
      var f :| f in existing && f in updated
        && !(LengthKept(existing[f], updated[f]) && (Mandatory(updated[f]) ==> Mandatory(existing[f])));
      if !LengthKept(existing[f], updated[f]) {
        TighterLengthLosesRow(rfc3339, existing, updated, stamp, f);
      } else {
        NewlyMandatoryLosesRow(rfc3339, existing, updated, stamp, f);
      }
    }
  }
}
