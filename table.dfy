/**
 * The table the cleaner works on (the pandas DataFrame `self.df`): an ordered
 * list of distinct column names and one row per record, each row giving a
 * cell for every column. Cells are kept as the text the row task prints.
 */
module Tables {
  import opened FieldSchema
  import opened RowTask

  datatype Table = Table(columns: seq<string>, rows: seq<Row>)

  /** Column names are distinct and every row has exactly the table's columns. */
  ghost predicate WellFormed(t: Table)
  {
    && NoDuplicates(t.columns)
    && forall i :: 0 <= i < |t.rows| ==> forall c :: c in t.rows[i] <==> c in t.columns
  }

  // ---------------------------------------------------------------------------
  // Column addition (mac_ai_cleaner.py:390-392)
  // ---------------------------------------------------------------------------

  /** `if field not in df.columns: df[field] = ""` */
  function AddColumn(t: Table, field: string): Table
  {
    if field in t.columns then t
    else Table(t.columns + [field], seq(|t.rows|, i requires 0 <= i < |t.rows| => t.rows[i][field := ""]))
  }

  /**
   * The table after the loop at mac_ai_cleaner.py:390-392: the original
   * columns come first and keep every cell; each field not already a column
   * is appended, holding `""` in every row.
   */
  function AddColumns(t: Table, fields: seq<string>): (r: Table)
    ensures |r.rows| == |t.rows|
    ensures |t.columns| <= |r.columns| && r.columns[..|t.columns|] == t.columns
    ensures forall f :: f in fields ==> f in r.columns
    ensures forall c :: c in r.columns ==> c in t.columns || c in fields
    ensures WellFormed(t) ==> WellFormed(r)
    ensures WellFormed(t) ==>
              forall i, c :: 0 <= i < |t.rows| && c in t.columns ==> r.rows[i][c] == t.rows[i][c]
    ensures WellFormed(t) ==>
              forall i, c :: 0 <= i < |t.rows| && c in r.columns && c !in t.columns ==> r.rows[i][c] == ""
    decreases |fields|
  {
    if fields == [] then t
    else
      var fs := fields[..|fields| - 1];
      var f := fields[|fields| - 1];
      assert fields == fs + [f];
      var before := AddColumns(t, fs);
      assert before.columns == t.columns + before.columns[|t.columns|..];
      AddColumn(before, f)
  }

  lemma AddColumnsSnoc(t: Table, fields: seq<string>, i: nat)
    requires i < |fields|
    ensures AddColumns(t, fields[..i + 1]) == AddColumn(AddColumns(t, fields[..i]), fields[i])
  {
    assert fields[..i + 1][..i] == fields[..i];
  }

  /** `[col for col in new_columns if col not in original_columns]` (mac_ai_cleaner.py:469) */
  function Without(cols: seq<string>, originals: seq<string>): seq<string>
    decreases |cols|
  {
    if cols == [] then []
    else (if cols[0] in originals then [] else [cols[0]]) + Without(cols[1..], originals)
  }

  /** The columns kept are exactly those of `cols` that are not among `originals`. */
  lemma {:induction false} WithoutMembers(cols: seq<string>, originals: seq<string>)
    ensures forall c :: c in Without(cols, originals) <==> c in cols && c !in originals
    decreases |cols|
  {
    if cols != [] {
      assert cols == [cols[0]] + cols[1..];
      WithoutMembers(cols[1..], originals);
    }
  }

  lemma {:induction false} WithoutAppend(a: seq<string>, b: seq<string>, originals: seq<string>)
    ensures Without(a + b, originals) == Without(a, originals) + Without(b, originals)
    decreases |a|
  {
    if a == [] {
      assert a + b == b;
    } else {
      var head: seq<string> := if a[0] in originals then [] else [a[0]];
      assert (a + b)[0] == a[0];
      assert (a + b)[1..] == a[1..] + b;
      WithoutAppend(a[1..], b, originals);
      calc {
        Without(a + b, originals);
        head + Without(a[1..] + b, originals);
        head + (Without(a[1..], originals) + Without(b, originals));
        (head + Without(a[1..], originals)) + Without(b, originals);
        Without(a, originals) + Without(b, originals);
      }
    }
  }

  lemma WithoutSnoc(cols: seq<string>, originals: seq<string>)
    requires cols != []
    ensures Without(cols, originals) ==
              Without(cols[..|cols| - 1], originals) + Without([cols[|cols| - 1]], originals)
  {
    var last := cols[|cols| - 1];
    assert cols == cols[..|cols| - 1] + [last];
    WithoutAppend(cols[..|cols| - 1], [last], originals);
  }

  /** With distinct fields, the columns appended are the fields that were not columns, in order. */
  lemma {:induction false} AppendedColumns(t: Table, fields: seq<string>)
    requires NoDuplicates(fields)
    ensures AddColumns(t, fields).columns == t.columns + Without(fields, t.columns)
    decreases |fields|
  {
    if fields != [] {
      var fs := fields[..|fields| - 1];
      var f := fields[|fields| - 1];
      AppendedColumns(t, fs);
      WithoutSnoc(fields, t.columns);
      var before := AddColumns(t, fs);
      WithoutMembers(fs, t.columns);
      assert f !in fs;
      assert f in before.columns <==> f in t.columns;
      assert Without([f], t.columns) == if f in t.columns then [] else [f] by {
        assert [f][1..] == [];
      }
    }
  }

  /**
   * The fields reported as added at the end of a run are exactly the schema
   * fields that were not original columns, in schema order, and they are the
   * columns appended after the original ones.
   */
  lemma AddedFieldsAreNewSchemaFields(t: Table, fields: seq<string>)
    requires NoDuplicates(fields)
    ensures var r := AddColumns(t, fields);
            && Without(r.columns, t.columns) == Without(fields, t.columns)
            && r.columns == t.columns + Without(fields, t.columns)
  {
    AppendedColumns(t, fields);
    var added := Without(fields, t.columns);
    WithoutAppend(t.columns, added, t.columns);
    WithoutMembers(fields, t.columns);
    WithoutIdempotent(added, t.columns);
    WithoutCovered(t.columns, t.columns);
  }

  lemma {:induction false} WithoutCovered(cols: seq<string>, originals: seq<string>)
    requires forall c :: c in cols ==> c in originals
    ensures Without(cols, originals) == []
    decreases |cols|
  {
    if cols != [] {
      assert cols[0] in cols;
      WithoutCovered(cols[1..], originals);
    }
  }

  lemma {:induction false} WithoutIdempotent(cols: seq<string>, originals: seq<string>)
    requires forall c :: c in cols ==> c !in originals
    ensures Without(cols, originals) == cols
    decreases |cols|
  {
    if cols != [] {
      assert cols == [cols[0]] + cols[1..];
      WithoutIdempotent(cols[1..], originals);
    }
  }

  // ---------------------------------------------------------------------------
  // Merging a row's result (mac_ai_cleaner.py:439-440)
  // ---------------------------------------------------------------------------

  /** The table after a row task's field map is written into row `idx`. */
  function MergeRow(t: Table, idx: nat, m: map<string, string>): (r: Table)
    requires idx < |t.rows|
    ensures r.columns == t.columns && |r.rows| == |t.rows|
  {
    Table(t.columns, t.rows[idx := t.rows[idx] + m])
  }

  /**
   * The merge is additive: the cells `(idx, field)` for the fields of the map
   * take the map's values, every other cell of row `idx` keeps its value, and
   * every other row is unchanged.
   */
  lemma MergeRowCells(t: Table, idx: nat, m: map<string, string>)
    requires idx < |t.rows|
    ensures var r := MergeRow(t, idx, m);
            && (forall i :: 0 <= i < |t.rows| && i != idx ==> r.rows[i] == t.rows[i])
            && (forall c :: c in r.rows[idx] <==> c in t.rows[idx] || c in m)
            && (forall c :: c in m ==> r.rows[idx][c] == m[c])
            && (forall c :: c in t.rows[idx] && c !in m ==> r.rows[idx][c] == t.rows[idx][c])
  {
  }

  /** `df.at[idx, field] = value` */
  function SetCell(t: Table, idx: nat, field: string, value: string): (r: Table)
    requires idx < |t.rows|
  {
    Table(t.columns, t.rows[idx := t.rows[idx][field := value]])
  }

  /** Writing the cells of a map one at a time ends in the merge of the whole map. */
  lemma MergeRowSetCell(t: Table, idx: nat, m: map<string, string>, field: string, value: string)
    requires idx < |t.rows|
    ensures SetCell(MergeRow(t, idx, m), idx, field, value) == MergeRow(t, idx, m[field := value])
  {
    assert t.rows[idx] + m[field := value] == (t.rows[idx] + m)[field := value];
  }

  /** Taking one more key out of the keys still to write. */
  lemma MergeOneMoreKey(result: map<string, string>, rest: map<string, string>, field: string)
    requires field in rest && rest.Keys <= result.Keys
    ensures result - (rest - {field}).Keys == (result - rest.Keys)[field := result[field]]
    ensures |rest - {field}| < |rest|
  {
    assert rest.Keys == (rest - {field}).Keys + {field};
  }

  lemma MergeRowEmpty(t: Table, idx: nat)
    requires idx < |t.rows|
    ensures MergeRow(t, idx, map[]) == t
  {
    assert t.rows[idx] + map[] == t.rows[idx];
    assert t.rows[idx := t.rows[idx]] == t.rows;
  }

  /** A merge of fields that are columns keeps the table well formed; an empty map changes nothing. */
  lemma MergeRowKeepsShape(t: Table, idx: nat, m: map<string, string>)
    requires idx < |t.rows| && WellFormed(t)
    requires forall c :: c in m ==> c in t.columns
    ensures WellFormed(MergeRow(t, idx, m))
    ensures m == map[] ==> MergeRow(t, idx, m) == t
  {
    var r := MergeRow(t, idx, m);
    MergeRowCells(t, idx, m);
    if m == map[] {
      assert r.rows[idx] == t.rows[idx];
      assert r.rows == t.rows;
    }
  }
}
