/** The `Base` constructor: every fetched table processed and indexed by id and by name. */
module BaseIndex {
  import opened Wrappers
  import opened Js
  import opened Schema
  import opened Tables

  /** The errors the client throws. */
  datatype Error =
    | NoToken        // the constructor received a falsy token
    | MissingTables  // the fetched document has no `tables` (a TypeError in the source)

  /** The fetched base document; `tables` may be missing. */
  datatype Payload = Payload(tables: Option<seq<RawTable>>)

  /** A constructed base. `tables` is declared by the source but never filled. */
  datatype Base = Base(tableById: map<string, Table>, tableByName: map<string, Table>, tables: seq<Table>)

  /** Processing every table of the payload cannot throw. */
  predicate PayloadWellTyped(p: Payload) {
    p.tables.Some? ==> forall i | 0 <= i < |p.tables.value| :: RowsWellTyped(p.tables.value[i])
  }

  /** Table `i` carries an id that no later table repeats. */
  predicate IsLastWithId(ts: seq<RawTable>, i: int) {
    && 0 <= i < |ts|
    && forall j | i < j < |ts| :: ts[j].id != ts[i].id
  }

  /** Table `i` carries a name that no later table repeats. */
  predicate IsLastWithName(ts: seq<RawTable>, i: int) {
    && 0 <= i < |ts|
    && forall j | i < j < |ts| :: ts[j].name != ts[i].name
  }

  /**
   `new Base(data)`: throws when the document has no `tables`; otherwise
   indexes the processed tables by `_id` and by `name`, a later table
   overwriting an earlier one under the same id or name, and leaves `tables`
   empty.
   */
  function NewBase(p: Payload): (r: Result<Base, Error>)
    requires PayloadWellTyped(p)
    ensures r.Failure? <==> p.tables.None?
    ensures r.Failure? ==> r.error == MissingTables
    ensures r.Success? ==> r.value.tables == []
    ensures r.Success? ==> r.value.tableById.Keys == set i | 0 <= i < |p.tables.value| :: p.tables.value[i].id
    ensures r.Success? ==> r.value.tableByName.Keys == set i | 0 <= i < |p.tables.value| :: p.tables.value[i].name
    ensures r.Success? ==> forall i {:trigger IsLastWithId(p.tables.value, i)} | IsLastWithId(p.tables.value, i) ::
      r.value.tableById[p.tables.value[i].id] == ProcessTable(p.tables.value[i])
    ensures r.Success? ==> forall i {:trigger IsLastWithName(p.tables.value, i)} | IsLastWithName(p.tables.value, i) ::
      r.value.tableByName[p.tables.value[i].name] == ProcessTable(p.tables.value[i])
  {
    if p.tables.None? then Failure(MissingTables)
    else
      var ts := p.tables.value;
      var processed := seq(|ts|, i requires 0 <= i < |ts| => ProcessTable(ts[i]));
      var byId := seq(|ts|, i requires 0 <= i < |ts| => (processed[i].id, processed[i]));
      var byName := seq(|ts|, i requires 0 <= i < |ts| => (processed[i].name, processed[i]));
      IndexedByField(ts, processed, byId, byName);
      Success(Base(FromEntries(byId), FromEntries(byName), []))
  }

  /** The two entry lists `NewBase` indexes, related back to the raw tables. */
  lemma IndexedByField(ts: seq<RawTable>, processed: seq<Table>,
                       byId: seq<(string, Table)>, byName: seq<(string, Table)>)
    requires forall i | 0 <= i < |ts| :: RowsWellTyped(ts[i])
    requires |processed| == |ts| && forall i | 0 <= i < |ts| :: processed[i] == ProcessTable(ts[i])
    requires |byId| == |ts| && forall i | 0 <= i < |ts| :: byId[i] == (processed[i].id, processed[i])
    requires |byName| == |ts| && forall i | 0 <= i < |ts| :: byName[i] == (processed[i].name, processed[i])
    ensures (set i | 0 <= i < |byId| :: byId[i].0) == set i | 0 <= i < |ts| :: ts[i].id
    ensures (set i | 0 <= i < |byName| :: byName[i].0) == set i | 0 <= i < |ts| :: ts[i].name
    ensures forall i {:trigger IsLastWithId(ts, i)} | IsLastWithId(ts, i) :: IsLastEntry(byId, i)
    ensures forall i {:trigger IsLastWithName(ts, i)} | IsLastWithName(ts, i) :: IsLastEntry(byName, i)
  {
  }
}
