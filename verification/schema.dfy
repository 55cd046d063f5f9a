/**
 The shapes of the service's raw table payload that the transform reads:
 options, columns, rows and tables, reduced to the fields it uses.
 */
module Schema {
  import opened Wrappers
  import opened Js

  /** The column type tags the cell resolver distinguishes. */
  const SingleSelect: string := "single-select"
  const MultipleSelect: string := "multiple-select"

  /** One allowed value of a select column. */
  datatype SelectOption = SelectOption(id: string, name: string)

  /** A column's `data` object; only its `options` list matters here. */
  datatype ColumnData = ColumnData(options: Option<seq<SelectOption>>)

  /** A column descriptor: internal `key`, display `name`, type tag and optional `data`. */
  datatype Column = Column(key: string, name: string, kind: string, data: Option<ColumnData>)

  /**
   A raw row as the own properties of the fetched row object, in the order
   `Object.entries` enumerates them. Those keys are distinct: `Object.entries`
   never repeats a key. The datatype does not enforce this; on entries that
   repeat a key the model writes every occurrence in turn.
   */
  datatype Row = Row(entries: seq<(string, Value)>)

  /** A table as fetched, before processing. */
  datatype RawTable = RawTable(id: string, name: string, columns: seq<Column>, rows: seq<Row>)

  /** The row object itself: property `k` of the row holds the value of its entry `k`. */
  function Fields(row: Row): map<string, Value> {
    FromEntries(row.entries)
  }

  /**
   `row[k]`: the value of the row's entry `k`, or `undefined` when there is none.
   It is read off the entries directly, scanning from the last one; `LookupIsField`
   shows it is the property `k` of the row object.
   */
  function Lookup(row: Row, k: string): (v: Value)
    ensures (forall i | 0 <= i < |row.entries| :: row.entries[i].0 != k) ==> v == Undefined
    ensures forall i {:trigger IsLastEntry(row.entries, i)} | IsLastEntry(row.entries, i) && row.entries[i].0 == k ::
      v == row.entries[i].1
    decreases |row.entries|
  {
    var es := row.entries;
    if |es| == 0 then Undefined
    else if es[|es| - 1].0 == k then es[|es| - 1].1
    else
      var v := Lookup(Row(es[..|es| - 1]), k);
      assert forall i | IsLastEntry(es, i) && es[i].0 == k :: IsLastEntry(es[..|es| - 1], i);
      v
  }

  /** Reading an entry off the row agrees with reading the property of the row object. */
  lemma LookupIsField(row: Row, k: string)
    ensures Lookup(row, k) == Get(Fields(row), k)
  {
    if k in Fields(row) {
      var i := LastEntryExists(row.entries, k);
    }
  }

  /**
   The option list the index builder walks for a column: `data.options` when
   `data` exists and its `options` list exists and is non-empty, and nothing otherwise.
   */
  function OptionsOf(c: Column): (opts: seq<SelectOption>)
    ensures |opts| == 0 <==> c.data.None? || c.data.value.options.None? || |c.data.value.options.value| == 0
    ensures |opts| > 0 ==> opts == c.data.value.options.value
  {
    if c.data.Some? && c.data.value.options.Some? && |c.data.value.options.value| > 0
    then c.data.value.options.value
    else []
  }

  /** Column `i` carries a key that no later column repeats. */
  predicate IsLastWithKey(cols: seq<Column>, i: int) {
    && 0 <= i < |cols|
    && forall j | i < j < |cols| :: cols[j].key != cols[i].key
  }

  /**
   `toDictionary`: the object from each column's `key` to the column. For a
   repeated key the column that comes last wins.
   */
  function ToDictionary(cols: seq<Column>): (d: map<string, Column>)
    ensures d.Keys == set i | 0 <= i < |cols| :: cols[i].key
    ensures forall i {:trigger IsLastWithKey(cols, i)} | IsLastWithKey(cols, i) :: d[cols[i].key] == cols[i]
    ensures forall k | k in d :: d[k].key == k
  {
    var xs := seq(|cols|, i requires 0 <= i < |cols| => (cols[i].key, cols[i]));
    assert |xs| == |cols| && forall i | 0 <= i < |cols| :: xs[i] == (cols[i].key, cols[i]);
    assert forall i | 0 <= i < |cols| :: IsLastWithKey(cols, i) <==> IsLastEntry(xs, i);
    assert (set i | 0 <= i < |xs| :: xs[i].0) == set i | 0 <= i < |cols| :: cols[i].key;
    var d := FromEntries(xs);
    assert forall k | k in d :: d[k].key == k by {
      forall k | k in d
        ensures d[k].key == k
      {
        var i := LastEntryExists(xs, k);
      }
    }
    d
  }

  /** Every column the dictionary holds is the last column with its key. */
  lemma DictionaryColumn(cols: seq<Column>, k: string) returns (i: int)
    requires k in ToDictionary(cols)
    ensures IsLastWithKey(cols, i) && cols[i].key == k && ToDictionary(cols)[k] == cols[i]
  {
    var xs := seq(|cols|, i requires 0 <= i < |cols| => (cols[i].key, cols[i]));
    assert forall i | 0 <= i < |cols| :: xs[i] == (cols[i].key, cols[i]);
    assert (set i | 0 <= i < |xs| :: xs[i].0) == set i | 0 <= i < |cols| :: cols[i].key;
    i := LastEntryExists(xs, k);
    assert IsLastWithKey(cols, i);
  }

  /** The index key `"{name}.{id}"` under which an option of column `name` is stored. */
  function CompositeKey(name: string, id: string): string {
    name + "." + id
  }

  /**
   Two index keys can only coincide for different (name, id) pairs when a
   column name contains '.': with dot-free names the key determines both parts.
   */
  lemma CompositeKeyInjective(n1: string, id1: string, n2: string, id2: string)
    requires '.' !in n1 && '.' !in n2
    requires CompositeKey(n1, id1) == CompositeKey(n2, id2)
    ensures n1 == n2 && id1 == id2
  {
    var k := CompositeKey(n1, id1);
    assert k == n1 + "." + id1;
    assert k == n2 + "." + id2;
    assert k[|n1|] == '.' && k[|n2|] == '.';
    if |n1| < |n2| {
      assert false;
    }
    if |n2| < |n1| {
      assert false;
    }
    assert n1 == k[..|n1|] == n2;
    assert id1 == k[|n1| + 1..] == id2;
  }

  /**
   The string keys do not identify (column name, option id) pairs in general:
   column "a.b" with option "c" and column "a" with option "b.c" share a key.
   */
  lemma CompositeKeyCollides()
    ensures exists n1, id1, n2, id2 :: (n1, id1) != (n2, id2) && CompositeKey(n1, id1) == CompositeKey(n2, id2)
  {
    assert CompositeKey("a.b", "c") == CompositeKey("a", "b.c");
    assert ("a.b", "c") != ("a", "b.c");
  }
}
