/** The input checks of the database client's forms: the create-table form
    (the action of the "Create Table" button in dgfx8) and the FIELD=VALUE
    criteria of dgfx8.deleteRecordByCondition. */
module Forms {
  import opened Outcomes
  import opened JavaText
  import opened SqlText

  // ---------------------------------------------------------------------------
  // The create-table form

  /** One field row of the form: the text of its name field and the choice
      of its type box, None when nothing is selected. */
  datatype FieldRow = FieldRow(name: string, fieldType: Option<string>)

  datatype DefinitionError =
    | EmptyTableName              // "Table name cannot be empty."
    | TableExists(table: string)  // "Table '...' already exists in the database."
    | NoFields                    // "Table must have at least one field."
    | EmptyFieldName(row: nat)    // "Field name cannot be empty for field " + (i + 1)
    | MissingType(field: string)  // "Please select a data type for field '...'."
    | DuplicateField(field: string) // "Duplicate field name: '...'."

  /** A table name or a field name as the form reads it: trimmed, then
      upper-cased. */
  function Key(text: string): string {
    ToUpper(Trim(text))
  }

  /** The rows up to n have a name and a type, and no two of them share a
      name. */
  predicate RowsValid(rows: seq<FieldRow>, n: nat)
    requires n <= |rows|
  {
    && (forall k :: 0 <= k < n ==> Key(rows[k].name) != [] && rows[k].fieldType.Some?)
    && (forall j, k :: 0 <= j < k < n ==> Key(rows[j].name) != Key(rows[k].name))
  }

  /** The schema map the rows fill, in row order. */
  function Columns(rows: seq<FieldRow>): (cs: seq<Column>)
    requires forall k :: 0 <= k < |rows| ==> rows[k].fieldType.Some?
    ensures |cs| == |rows|
    ensures forall k :: 0 <= k < |rows| ==> cs[k] == Column(Key(rows[k].name), rows[k].fieldType.value)
  {
    seq(|rows|, k requires 0 <= k < |rows| => Column(Key(rows[k].name), rows[k].fieldType.value))
  }

  /** The loop over the field rows from row i on, acc holding the map built
      from the rows before i. */
  function FieldsFrom(rows: seq<FieldRow>, i: nat, acc: seq<Column>): (r: Result<seq<Column>, DefinitionError>)
    requires i <= |rows|
    ensures r.Ok? ==> |r.value| == |acc| + |rows| - i && r.value[..|acc|] == acc
    ensures r.Err? && r.error.EmptyFieldName? ==> i < r.error.row <= |rows|
    decreases |rows| - i
  {
    if i == |rows| then Ok(acc)
    else
      var name := Key(rows[i].name);
      if name == [] then Err(EmptyFieldName(i + 1))
      else if rows[i].fieldType.None? then Err(MissingType(name))
      else if name in Names(acc) then Err(DuplicateField(name))
      else FieldsFrom(rows, i + 1, acc + [Column(name, rows[i].fieldType.value)])
  }

  datatype TableDefinition = TableDefinition(name: string, columns: seq<Column>)

  /** The checks of the "Create Table" action; `existing` stands for the
      table names the database reports. */
  function Validate(tableText: string, existing: seq<string>, rows: seq<FieldRow>): (r: Result<TableDefinition, DefinitionError>)
    ensures r.Ok? ==> r.value.name == Key(tableText) && r.value.name != [] && r.value.name !in existing
    ensures r.Ok? ==> |r.value.columns| == |rows| > 0
  {
    var table := Key(tableText);
    if table == [] then Err(EmptyTableName)
    else if table in existing then Err(TableExists(table))
    else if rows == [] then Err(NoFields)
    else
      match FieldsFrom(rows, 0, [])
      case Ok(cs) => Ok(TableDefinition(table, cs))
      case Err(e) => Err(e)
  }

  /** The action as the source runs it: a loop that fills the ordered map
      and returns at the first bad row. */
  method ValidateDefinition(tableText: string, existing: seq<string>, rows: seq<FieldRow>)
    returns (r: Result<TableDefinition, DefinitionError>)
    ensures r == Validate(tableText, existing, rows)
  {
    var table := ToUpper(Trim(tableText));
    if table == [] {
      return Err(EmptyTableName);
    }
    if table in existing {
      return Err(TableExists(table));
    }
    if rows == [] {
      return Err(NoFields);
    }
    var schema: seq<Column> := [];
    var i := 0;
    while i < |rows|
      invariant i <= |rows|
      invariant FieldsFrom(rows, 0, []) == FieldsFrom(rows, i, schema)
    {
      var fieldName := ToUpper(Trim(rows[i].name));
      if fieldName == [] {
        return Err(EmptyFieldName(i + 1));
      }
      if rows[i].fieldType.None? {
        return Err(MissingType(fieldName));
      }
      if fieldName in Names(schema) {
        return Err(DuplicateField(fieldName));
      }
      schema := schema + [Column(fieldName, rows[i].fieldType.value)];
      i := i + 1;
    }
    return Ok(TableDefinition(table, schema));
  }

  lemma NamesOfColumns(rows: seq<FieldRow>, i: nat, name: string)
    requires i <= |rows| && forall k :: 0 <= k < i ==> rows[k].fieldType.Some?
    ensures name in Names(Columns(rows[..i])) <==> exists j :: 0 <= j < i && Key(rows[j].name) == name
  {
    var ns := Names(Columns(rows[..i]));
    if name in ns {
      var j :| 0 <= j < |ns| && ns[j] == name;
      assert rows[..i][j] == rows[j];
    }
    if exists j :: 0 <= j < i && Key(rows[j].name) == name {
      var j :| 0 <= j < i && Key(rows[j].name) == name;
      assert rows[..i][j] == rows[j];
      assert ns[j] == name;
    }
  }

  /** The rows before i+1 pass once the rows before i pass and row i has a
      name and a type that no earlier row has. */
  lemma RowsValidStep(rows: seq<FieldRow>, i: nat)
    requires i < |rows| && RowsValid(rows, i)
    requires Key(rows[i].name) != [] && rows[i].fieldType.Some?
    requires forall j :: 0 <= j < i ==> Key(rows[j].name) != Key(rows[i].name)
    ensures RowsValid(rows, i + 1)
  {
    forall k | 0 <= k < i + 1
      ensures Key(rows[k].name) != [] && rows[k].fieldType.Some?
    {
      if k < i {
        assert Key(rows[k].name) != [] && rows[k].fieldType.Some?;
      }
    }
    forall j, k | 0 <= j < k < i + 1
      ensures Key(rows[j].name) != Key(rows[k].name)
    {
      if k < i {
        assert Key(rows[j].name) != Key(rows[k].name);
      } else {
        assert rows[k] == rows[i];
      }
    }
  }

  /** The map built from the rows before i+1 extends the one built from the
      rows before i. */
  lemma ColumnsStep(rows: seq<FieldRow>, i: nat)
    requires i < |rows| && forall k :: 0 <= k <= i ==> rows[k].fieldType.Some?
    ensures Columns(rows[..i + 1]) == Columns(rows[..i]) + [Column(Key(rows[i].name), rows[i].fieldType.value)]
  {
    assert rows[..i + 1][..i] == rows[..i];
  }

  /** What the loop from row i on decides, given that the rows before i
      passed and filled acc: it accepts exactly valid rows and returns their
      map. */
  lemma {:induction false} FieldsFromAccepts(rows: seq<FieldRow>, i: nat, acc: seq<Column>)
    requires i <= |rows| && RowsValid(rows, i)
    requires acc == Columns(rows[..i])
    ensures FieldsFrom(rows, i, acc).Ok? <==> RowsValid(rows, |rows|)
    ensures FieldsFrom(rows, i, acc).Ok? ==> FieldsFrom(rows, i, acc).value == Columns(rows)
    decreases |rows| - i
  {
    if i == |rows| {
      assert rows[..i] == rows;
    } else {
      var name := Key(rows[i].name);
      NamesOfColumns(rows, i, name);
      if name != [] && rows[i].fieldType.Some? && name !in Names(acc) {
        RowsValidStep(rows, i);
        ColumnsStep(rows, i);
        FieldsFromAccepts(rows, i + 1, acc + [Column(name, rows[i].fieldType.value)]);
      } else if name in Names(acc) {
        var j :| 0 <= j < i && Key(rows[j].name) == name;
        assert !RowsValid(rows, |rows|);
      }
    }
  }

  /** The error names a row from `from` on that fails, or two rows with one
      name. */
  predicate Explains(rows: seq<FieldRow>, from: nat, e: DefinitionError)
    requires from <= |rows|
  {
    match e
    case EmptyFieldName(p) => from < p <= |rows| && Key(rows[p - 1].name) == []
    case MissingType(f) => exists k :: from <= k < |rows| && Key(rows[k].name) == f && rows[k].fieldType.None?
    case DuplicateField(f) => exists j, k :: 0 <= j < k < |rows| && Key(rows[j].name) == f && Key(rows[k].name) == f
    case _ => false
  }

  lemma {:induction false} FieldsFromRejects(rows: seq<FieldRow>, i: nat, acc: seq<Column>)
    requires i <= |rows| && forall k :: 0 <= k < i ==> rows[k].fieldType.Some?
    requires acc == Columns(rows[..i])
    requires FieldsFrom(rows, i, acc).Err?
    ensures Explains(rows, i, FieldsFrom(rows, i, acc).error)
    decreases |rows| - i
  {
    var name := Key(rows[i].name);
    if name == [] {
    } else if rows[i].fieldType.None? {
      assert Explains(rows, i, MissingType(name));
    } else if name in Names(acc) {
      NamesOfColumns(rows, i, name);
      var j :| 0 <= j < i && Key(rows[j].name) == name;
      assert Explains(rows, i, DuplicateField(name));
    } else {
      ColumnsStep(rows, i);
      FieldsFromRejects(rows, i + 1, acc + [Column(name, rows[i].fieldType.value)]);
      var e := FieldsFrom(rows, i + 1, acc + [Column(name, rows[i].fieldType.value)]).error;
      assert Explains(rows, i + 1, e);
      if e.MissingType? {
        var k :| i + 1 <= k < |rows| && Key(rows[k].name) == e.field && rows[k].fieldType.None?;
      }
    }
  }

  /** The form is accepted exactly when the table name is not empty and not
      taken, there is at least one row, every row has a name and a type, and
      no two names are equal once trimmed and upper-cased; the definition
      then lists the rows' names and types in row order. */
  lemma ValidateAccepts(tableText: string, existing: seq<string>, rows: seq<FieldRow>)
    ensures Validate(tableText, existing, rows).Ok?
            <==> Key(tableText) != [] && Key(tableText) !in existing && rows != [] && RowsValid(rows, |rows|)
    ensures Validate(tableText, existing, rows).Ok?
            ==> Validate(tableText, existing, rows).value == TableDefinition(Key(tableText), Columns(rows))
  {
    assert rows[..0] == [];
    FieldsFromAccepts(rows, 0, []);
  }

  /** The accepted map has unique, non-empty keys. */
  lemma AcceptedKeysUnique(tableText: string, existing: seq<string>, rows: seq<FieldRow>)
    requires Validate(tableText, existing, rows).Ok?
    ensures var cs := Validate(tableText, existing, rows).value.columns;
            && (forall k :: 0 <= k < |cs| ==> cs[k].name != [])
            && (forall j, k :: 0 <= j < k < |cs| ==> cs[j].name != cs[k].name)
  {
    ValidateAccepts(tableText, existing, rows);
  }

  /** A rejected form names the row that fails. */
  lemma ValidateRejects(tableText: string, existing: seq<string>, rows: seq<FieldRow>)
    requires Validate(tableText, existing, rows).Err?
    ensures match Validate(tableText, existing, rows).error
            case EmptyTableName => Key(tableText) == []
            case TableExists(t) => t == Key(tableText) && t in existing
            case NoFields => rows == []
            case _ => rows != [] && Explains(rows, 0, Validate(tableText, existing, rows).error)
  {
    if Key(tableText) != [] && Key(tableText) !in existing && rows != [] {
      assert rows[..0] == [];
      FieldsFromRejects(rows, 0, []);
    }
  }

  // ---------------------------------------------------------------------------
  // The deletion criteria

  datatype CriteriaError =
    | EmptyCriteria   // "Deletion criteria cannot be empty."
    | InvalidFormat   // "Invalid criteria format. Use 'FIELD=VALUE'."

  /** criteria.split("=", 2) followed by the trimming and upper-casing of
      dgfx8.deleteRecordByCondition: the field name is what comes before the
      first '=', and the value, which may hold more '=', what comes after. */
  function SplitCriteria(criteria: string): (r: Result<(string, string), CriteriaError>)
    ensures r == Err(EmptyCriteria) <==> criteria == []
    ensures r == Err(InvalidFormat) <==> criteria != [] && '=' !in criteria
    ensures r.Ok? ==> var k := FirstIndex(criteria, '=');
                      && k < |criteria|
                      && r.value.0 == Key(criteria[..k])
                      && r.value.1 == Trim(criteria[k + 1..])
  {
    if criteria == [] then Err(EmptyCriteria)
    else
      var k := FirstIndex(criteria, '=');
      if k == |criteria| then Err(InvalidFormat)
      else Ok((Key(criteria[..k]), Trim(criteria[k + 1..])))
  }

  /** Writing a field name and a value as FIELD=VALUE and splitting the text
      gives them back, whatever '=' the value holds. */
  lemma SplitJoinedCriteria(field: string, value: string)
    requires '=' !in field && Key(field) == field && Trim(value) == value
    ensures SplitCriteria(field + "=" + value) == Ok((field, value))
  {
    var s := field + "=" + value;
    assert forall j :: 0 <= j < |field| ==> s[j] == field[j];
    assert s[|field|] == '=';
    assert FirstIndex(s, '=') == |field|;
    assert s[..|field|] == field;
    assert s[|field| + 1..] == value;
  }

  /** The field name of an accepted criteria holds no '=' and is already
      trimmed and upper-cased. */
  lemma SplitFieldIsKey(criteria: string)
    requires SplitCriteria(criteria).Ok?
    ensures var f := SplitCriteria(criteria).value.0;
            '=' !in f && Key(f) == f
  {
    var k := FirstIndex(criteria, '=');
    var before := criteria[..k];
    assert '=' !in before;
    TrimWithout(before, '=');
    UpperTrimmed(Trim(before));
    ToUpperIdempotent(Trim(before));
  }

  /** Upper-casing keeps a trimmed text trimmed and adds no '='. */
  lemma UpperTrimmed(t: string)
    requires Trim(t) == t && '=' !in t
    ensures Trim(ToUpper(t)) == ToUpper(t) && '=' !in ToUpper(t)
  {
    var u := ToUpper(t);
    if t != [] {
      assert !IsTrimmable(t[0]) && !IsTrimmable(t[|t| - 1]);
      TrimUntrimmed(u);
    }
    assert forall j :: 0 <= j < |u| ==> u[j] == UpperChar(t[j]) && t[j] in t;
  }
}
