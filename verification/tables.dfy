/**
 `processTable`: the option index followed by the row normaliser, which turns
 each raw row into a record keyed by column display names.
 */
module Tables {
  import opened Wrappers
  import opened Js
  import opened Schema
  import opened OptionIndex
  import opened Cells

  /** The row key whose truthiness marks a genuine data row. */
  const Sentinel: string := "0000"
  /** The row property holding the row's id. */
  const RowIdKey: string := "_id"
  /** The record field the row's id is copied to. */
  const IdField: string := "id"

  /** A normalised row: field name to resolved value. */
  type Record = map<string, Value>

  /** A processed table: the raw table plus the derived option indexes and data. */
  datatype Table = Table(
    id: string,
    name: string,
    columns: seq<Column>,
    rows: seq<Row>,
    optionById: map<string, SelectOption>,
    optionNameById: map<string, string>,
    data: seq<Option<Record>>)

  /** `row["0000"]` is truthy. */
  predicate IsDataRow(row: Row) {
    Truthy(Lookup(row, Sentinel))
  }

  /** Every cell of a `multiple-select` column holds an array, so resolving it cannot throw. */
  predicate CellsWellTyped(row: Row, colById: map<string, Column>) {
    forall i | 0 <= i < |row.entries| ::
      row.entries[i].0 in colById && colById[row.entries[i].0].kind == MultipleSelect ==> row.entries[i].1.Arr?
  }

  /** Normalising each data row of `t` cannot throw. */
  predicate RowsWellTyped(t: RawTable) {
    forall i | 0 <= i < |t.rows| :: IsDataRow(t.rows[i]) ==> CellsWellTyped(t.rows[i], ToDictionary(t.columns))
  }

  /** The field entry `i` of a row writes: the display name of its column. */
  function FieldName(row: Row, colById: map<string, Column>, i: int): string
    requires 0 <= i < |row.entries| && row.entries[i].0 in colById
  {
    colById[row.entries[i].0].name
  }

  /** Entry `i` has a column, and no later entry with a column writes the same field. */
  predicate IsFinalField(row: Row, colById: map<string, Column>, i: int) {
    && 0 <= i < |row.entries|
    && row.entries[i].0 in colById
    && forall j | i < j < |row.entries| && row.entries[j].0 in colById ::
         FieldName(row, colById, j) != FieldName(row, colById, i)
  }

  /** The fields the row's entries write: one per entry whose key is a column key. */
  function FieldNames(row: Row, colById: map<string, Column>): set<string> {
    set i | 0 <= i < |row.entries| && row.entries[i].0 in colById :: FieldName(row, colById, i)
  }

  /**
   The writes the `Object.entries(row).forEach` loop performs on the record:
   an entry whose key has no column is skipped, any other sets the column's
   display name to the resolved cell.
   */
  function FieldWrites(row: Row, colById: map<string, Column>, nameById: map<string, string>): (ws: seq<Option<(string, Value)>>)
    requires CellsWellTyped(row, colById)
    ensures |ws| == |row.entries|
    ensures forall i | 0 <= i < |row.entries| ::
      ws[i] == if row.entries[i].0 in colById
               then Some((FieldName(row, colById, i), ParseColumn(colById[row.entries[i].0], row.entries[i].1, nameById)))
               else None
  {
    var es := row.entries;
    seq(|es|, i requires 0 <= i < |es| =>
      if es[i].0 in colById
      then Some((colById[es[i].0].name, ParseColumn(colById[es[i].0], es[i].1, nameById)))
      else None)
  }

  /**
   The row normaliser. A row whose `"0000"` property is falsy becomes
   `undefined`. Any other becomes a record holding `id` and the display name
   of the column of every entry whose key is a column key, and nothing else.
   Each such field holds the resolved value of the last entry writing it; `id`
   holds the row's `_id` unless an entry's column is itself named `id`.
   */
  function NormalizeRow(row: Row, colById: map<string, Column>, nameById: map<string, string>): (r: Option<Record>)
    requires IsDataRow(row) ==> CellsWellTyped(row, colById)
    ensures r.None? <==> !IsDataRow(row)
    ensures r.Some? ==> r.value.Keys == {IdField} + FieldNames(row, colById)
    ensures r.Some? ==> forall i {:trigger IsFinalField(row, colById, i)} | IsFinalField(row, colById, i) ::
      r.value[FieldName(row, colById, i)] == ParseColumn(colById[row.entries[i].0], row.entries[i].1, nameById)
    ensures r.Some? && IdField !in FieldNames(row, colById) ==> r.value[IdField] == Lookup(row, RowIdKey)
  {
    if !IsDataRow(row) then None
    else
      var ws := FieldWrites(row, colById, nameById);
      var rec := Apply(map[IdField := Lookup(row, RowIdKey)], ws);
      RecordFields(row, colById, nameById, ws, rec);
      Some(rec)
  }

  /** The record the field writes produce, described field by field. */
  lemma RecordFields(row: Row, colById: map<string, Column>, nameById: map<string, string>,
                     ws: seq<Option<(string, Value)>>, rec: Record)
    requires CellsWellTyped(row, colById)
    requires ws == FieldWrites(row, colById, nameById)
    requires rec == Apply(map[IdField := Lookup(row, RowIdKey)], ws)
    ensures rec.Keys == {IdField} + FieldNames(row, colById)
    ensures forall i {:trigger IsFinalField(row, colById, i)} | IsFinalField(row, colById, i) ::
      rec[FieldName(row, colById, i)] == ParseColumn(colById[row.entries[i].0], row.entries[i].1, nameById)
    ensures IdField !in FieldNames(row, colById) ==> rec[IdField] == Lookup(row, RowIdKey)
  {
    FieldWritesKeys(row, colById, nameById);
    FieldWritesFinal(row, colById, nameById);
  }

  lemma FieldWritesKeys(row: Row, colById: map<string, Column>, nameById: map<string, string>)
    requires CellsWellTyped(row, colById)
    ensures WrittenKeys(FieldWrites(row, colById, nameById)) == FieldNames(row, colById)
  {
    var ws := FieldWrites(row, colById, nameById);
    forall k | k in FieldNames(row, colById)
      ensures k in WrittenKeys(ws)
    {
      var i :| 0 <= i < |row.entries| && row.entries[i].0 in colById && k == FieldName(row, colById, i);
      assert ws[i].Some? && ws[i].value.0 == k;
    }
  }

  lemma FieldWritesFinal(row: Row, colById: map<string, Column>, nameById: map<string, string>)
    requires CellsWellTyped(row, colById)
    ensures forall i {:trigger IsFinalField(row, colById, i)} | IsFinalField(row, colById, i) :: IsFinalWrite(FieldWrites(row, colById, nameById), i)
  {
  }

  /** `table.rows.map(...)`: one entry per row, in row order. */
  function NormalizeRows(rows: seq<Row>, colById: map<string, Column>, nameById: map<string, string>): (data: seq<Option<Record>>)
    requires forall i | 0 <= i < |rows| :: IsDataRow(rows[i]) ==> CellsWellTyped(rows[i], colById)
    ensures |data| == |rows|
    ensures forall i | 0 <= i < |rows| :: data[i] == NormalizeRow(rows[i], colById, nameById)
    ensures forall i | 0 <= i < |rows| :: data[i].None? <==> !IsDataRow(rows[i])
  {
    seq(|rows|, i requires 0 <= i < |rows| => NormalizeRow(rows[i], colById, nameById))
  }

  /**
   `processTable`: the table with its option indexes attached and one data
   entry per raw row, in row order, each the row's normalised record or
   `undefined`. Rows are not filtered out.
   */
  function ProcessTable(t: RawTable): (p: Table)
    requires RowsWellTyped(t)
    ensures p.id == t.id && p.name == t.name && p.columns == t.columns && p.rows == t.rows
    ensures p.optionById == BuildOptionIndex(t.columns).byId
    ensures p.optionNameById == BuildOptionIndex(t.columns).nameById
    ensures |p.data| == |t.rows|
    ensures forall i | 0 <= i < |t.rows| :: p.data[i].None? <==> !IsDataRow(t.rows[i])
    ensures forall i | 0 <= i < |t.rows| ::
      p.data[i] == NormalizeRow(t.rows[i], ToDictionary(t.columns), p.optionNameById)
  {
    var colById := ToDictionary(t.columns);
    var ix := BuildOptionIndex(t.columns);
    var data := NormalizeRows(t.rows, colById, ix.nameById);
    Table(t.id, t.name, t.columns, t.rows, ix.byId, ix.nameById, data)
  }

  /**
   A `single-select` cell holding the id of one of its column's options
   resolves to that option's display name, when the column is the one
   `toDictionary` keeps for its key and no later option is registered under
   the same index key.
   */
  lemma SingleSelectResolvesToOptionName(cols: seq<Column>, c: int, j: int)
    requires IsLastWithKey(cols, c) && cols[c].kind == SingleSelect
    requires IsFinalOption(Groups(cols), |cols|, c, j)
    ensures ToDictionary(cols)[cols[c].key] == cols[c]
    ensures ParseColumn(cols[c], Str(OptionsOf(cols[c])[j].id), BuildOptionIndex(cols).nameById)
         == Str(OptionsOf(cols[c])[j].name)
  {
    var o := OptionsOf(cols[c])[j];
    FinalOptionNameRegistered(cols, c, j);
    var name := RegisteredName(cols, c);
    assert name == cols[c].name;
    assert Entry(cols, c, j).0 == CompositeKey(name, o.id);
  }

  /** The name index maps the key of a final option to that option's name. */
  lemma FinalOptionNameRegistered(cols: seq<Column>, c: int, j: int)
    requires 0 <= c < |cols|
    requires IsFinalOption(Groups(cols), |cols|, c, j)
    ensures Entry(cols, c, j).0 in BuildOptionIndex(cols).nameById
    ensures BuildOptionIndex(cols).nameById[Entry(cols, c, j).0] == OptionsOf(cols[c])[j].name
  {
    var ix := BuildOptionIndex(cols);
    assert ix.byId[Entry(cols, c, j).0] == OptionsOf(cols[c])[j];
  }

  /**
   A select cell whose value names no registered option resolves to
   `undefined` rather than failing.
   */
  lemma UnknownOptionIsUndefined(cols: seq<Column>, c: int, v: Value)
    requires 0 <= c < |cols|
    requires forall i, j | 0 <= i < |cols| && 0 <= j < |OptionsOf(cols[i])| ::
      Entry(cols, i, j).0 != CompositeKey(cols[c].name, ToKey(v))
    ensures ResolveOption(BuildOptionIndex(cols).nameById, cols[c].name, v) == Undefined
  {
  }
}
