/**
 The option index built at the start of `processTable`: two objects keyed by
 `"{column name}.{option id}"`, one holding the option and one its display name.
 */
module OptionIndex {
  import opened Wrappers
  import opened Js
  import opened Schema

  /** `optionById` and `optionNameById` of a processed table. */
  datatype Index = Index(byId: map<string, SelectOption>, nameById: map<string, string>)

  /**
   The name column `i`'s options are registered under: the name of the column
   `toDictionary` keeps for its key, which is the last column with that key.
   */
  function RegisteredName(cols: seq<Column>, i: int): (name: string)
    requires 0 <= i < |cols|
    ensures forall j {:trigger IsLastWithKey(cols, j)} | IsLastWithKey(cols, j) && cols[j].key == cols[i].key :: name == cols[j].name
  {
    ToDictionary(cols)[cols[i].key].name
  }

  /** What one column writes: each of its options under its index key, in order. */
  type Group = seq<(string, SelectOption)>

  /** The option `j` of column `i` under its index key `"{registered name}.{option id}"`. */
  function Entry(cols: seq<Column>, i: int, j: int): (string, SelectOption)
    requires 0 <= i < |cols| && 0 <= j < |OptionsOf(cols[i])|
  {
    (CompositeKey(RegisteredName(cols, i), OptionsOf(cols[i])[j].id), OptionsOf(cols[i])[j])
  }

  /** The group column `i` writes: one entry per option, in option order. */
  function ColumnGroup(cols: seq<Column>, i: int): (g: Group)
    requires 0 <= i < |cols|
    ensures |g| == |OptionsOf(cols[i])|
    ensures forall j | 0 <= j < |g| :: g[j] == Entry(cols, i, j)
  {
    seq(|OptionsOf(cols[i])|, j requires 0 <= j < |OptionsOf(cols[i])| => Entry(cols, i, j))
  }

  /** The groups of all columns, in column order. */
  function Groups(cols: seq<Column>): (gs: seq<Group>)
    ensures |gs| == |cols|
    ensures forall i | 0 <= i < |cols| :: |gs[i]| == |OptionsOf(cols[i])|
    ensures forall i, j | 0 <= i < |cols| && 0 <= j < |gs[i]| :: gs[i][j] == Entry(cols, i, j)
  {
    seq(|cols|, i requires 0 <= i < |cols| => ColumnGroup(cols, i))
  }

  /** Every key the first `n` groups register. */
  function KeysUpTo(gs: seq<Group>, n: int): set<string>
    requires 0 <= n <= |gs|
  {
    set i, j | 0 <= i < n && 0 <= j < |gs[i]| :: gs[i][j].0
  }

  /**
   Among the first `n` groups, entry `j` of group `i` is the last one written
   under its key: no later entry of the same group and no entry of a later
   group has the same key.
   */
  predicate IsFinalOption(gs: seq<Group>, n: int, i: int, j: int)
    requires 0 <= n <= |gs|
  {
    && 0 <= i < n && 0 <= j < |gs[i]|
    && (forall j2 | j < j2 < |gs[i]| :: gs[i][j2].0 != gs[i][j].0)
    && (forall i2, j2 | i < i2 < n && 0 <= j2 < |gs[i2]| :: gs[i2][j2].0 != gs[i][j].0)
  }

  /** The writes of the inner `forEach` into `optionNameById`. */
  function NameWrites(g: Group): (ws: seq<Option<(string, string)>>)
    ensures |ws| == |g|
    ensures forall j | 0 <= j < |g| :: ws[j] == Some((g[j].0, g[j].1.name))
  {
    seq(|g|, j requires 0 <= j < |g| => Some((g[j].0, g[j].1.name)))
  }

  /**
   The two indexes after the outer `forEach` has visited the first `n` groups:
   they hold exactly the keys those groups register, the name index holds the
   name of the option the option index holds, and each key maps to the option
   written last under it.
   */
  function IndexUpTo(gs: seq<Group>, n: int): (ix: Index)
    requires 0 <= n <= |gs|
    ensures ix.byId.Keys == KeysUpTo(gs, n)
    ensures ix.nameById.Keys == ix.byId.Keys
    ensures forall k | k in ix.byId :: ix.nameById[k] == ix.byId[k].name
    ensures forall i, j {:trigger IsFinalOption(gs, n, i, j)} | IsFinalOption(gs, n, i, j) :: ix.byId[gs[i][j].0] == gs[i][j].1
    decreases n
  {
    if n == 0 then Index(map[], map[])
    else
      var prev := IndexUpTo(gs, n - 1);
      var ix := Index(Apply(prev.byId, WriteAll(gs[n - 1])), Apply(prev.nameById, NameWrites(gs[n - 1])));
      IndexStep(gs, n, prev, ix);
      ix
  }

  /** The keys one group registers. */
  function GroupKeys(g: Group): set<string> {
    set j | 0 <= j < |g| :: g[j].0
  }

  lemma KeysUpToStep(gs: seq<Group>, n: int)
    requires 0 < n <= |gs|
    ensures KeysUpTo(gs, n) == KeysUpTo(gs, n - 1) + GroupKeys(gs[n - 1])
  {
    var g := gs[n - 1];
    forall k | k in KeysUpTo(gs, n)
      ensures k in KeysUpTo(gs, n - 1) + GroupKeys(g)
    {
      var i, j :| 0 <= i < n && 0 <= j < |gs[i]| && k == gs[i][j].0;
      if i < n - 1 {
        assert k in KeysUpTo(gs, n - 1);
      }
    }
  }

  /** The keys a group's writes assign are the keys it registers. */
  lemma WrittenGroupKeys(g: Group)
    ensures WrittenKeys(WriteAll(g)) == GroupKeys(g)
    ensures WrittenKeys(NameWrites(g)) == GroupKeys(g)
  {
  }

  /** One more group keeps the invariants of `IndexUpTo`. */
  lemma IndexStep(gs: seq<Group>, n: int, prev: Index, ix: Index)
    requires 0 < n <= |gs|
    requires prev.byId.Keys == KeysUpTo(gs, n - 1)
    requires prev.nameById.Keys == prev.byId.Keys
    requires forall k | k in prev.byId :: prev.nameById[k] == prev.byId[k].name
    requires forall i, j {:trigger IsFinalOption(gs, n - 1, i, j)} | IsFinalOption(gs, n - 1, i, j) :: prev.byId[gs[i][j].0] == gs[i][j].1
    requires ix == Index(Apply(prev.byId, WriteAll(gs[n - 1])), Apply(prev.nameById, NameWrites(gs[n - 1])))
    ensures ix.byId.Keys == KeysUpTo(gs, n)
    ensures ix.nameById.Keys == ix.byId.Keys
    ensures forall k | k in ix.byId :: ix.nameById[k] == ix.byId[k].name
    ensures forall i, j {:trigger IsFinalOption(gs, n, i, j)} | IsFinalOption(gs, n, i, j) :: ix.byId[gs[i][j].0] == gs[i][j].1
  {
    WrittenGroupKeys(gs[n - 1]);
    KeysUpToStep(gs, n);
    NamesAgreeStep(gs[n - 1], prev, ix);
    forall i, j | IsFinalOption(gs, n, i, j)
      ensures ix.byId[gs[i][j].0] == gs[i][j].1
    {
      FinalOptionStep(gs, n, prev.byId, ix.byId, i, j);
    }
  }

  lemma FinalOptionStep(gs: seq<Group>, n: int, prev: map<string, SelectOption>, next: map<string, SelectOption>, i: int, j: int)
    requires 0 < n <= |gs|
    requires prev.Keys == KeysUpTo(gs, n - 1)
    requires forall i, j {:trigger IsFinalOption(gs, n - 1, i, j)} | IsFinalOption(gs, n - 1, i, j) :: prev[gs[i][j].0] == gs[i][j].1
    requires next == Apply(prev, WriteAll(gs[n - 1]))
    requires IsFinalOption(gs, n, i, j)
    ensures next[gs[i][j].0] == gs[i][j].1
  {
    if i == n - 1 {
      FinalInLastGroup(gs[n - 1], prev, next, j);
    } else {
      assert IsFinalOption(gs, n - 1, i, j);
      FinalInEarlierGroup(gs[n - 1], prev, next, gs[i][j].0);
    }
  }

  /** An entry of the group just written that no later entry overrides keeps its write. */
  lemma FinalInLastGroup(g: Group, prev: map<string, SelectOption>, next: map<string, SelectOption>, j: int)
    requires 0 <= j < |g|
    requires next == Apply(prev, WriteAll(g))
    requires forall j2 | j < j2 < |g| :: g[j2].0 != g[j].0
    ensures next[g[j].0] == g[j].1
  {
    assert IsFinalWrite(WriteAll(g), j);
  }

  /** A key the group just written does not register keeps its value. */
  lemma FinalInEarlierGroup(g: Group, prev: map<string, SelectOption>, next: map<string, SelectOption>, k: string)
    requires next == Apply(prev, WriteAll(g))
    requires k in prev
    requires forall j | 0 <= j < |g| :: g[j].0 != k
    ensures next[k] == prev[k]
  {
    WrittenGroupKeys(g);
  }

  /** Writing one group into both indexes keeps the name index in step with the option index. */
  lemma NamesAgreeStep(g: Group, prev: Index, ix: Index)
    requires prev.nameById.Keys == prev.byId.Keys
    requires forall k | k in prev.byId :: prev.nameById[k] == prev.byId[k].name
    requires ix == Index(Apply(prev.byId, WriteAll(g)), Apply(prev.nameById, NameWrites(g)))
    ensures ix.nameById.Keys == ix.byId.Keys
    ensures forall k | k in ix.byId :: ix.nameById[k] == ix.byId[k].name
  {
    var ow := WriteAll(g);
    var nw := NameWrites(g);
    WrittenGroupKeys(g);
    forall k | k in ix.byId
      ensures ix.nameById[k] == ix.byId[k].name
    {
      if k in WrittenKeys(ow) {
        var j := FinalWriteExists(ow, k);
        assert IsFinalWrite(nw, j);
      }
    }
  }

  /**
   `processTable`'s option index for a table with columns `cols`: exactly one
   key `"{name}.{option id}"` per option of every column whose `data.options`
   exists and is non-empty, `name` being the column's registered name; the
   option written last under a key wins; the name index agrees with the option
   index on every key.
   */
  function BuildOptionIndex(cols: seq<Column>): (ix: Index)
    ensures ix.byId.Keys ==
      set i, j | 0 <= i < |cols| && 0 <= j < |OptionsOf(cols[i])| :: Entry(cols, i, j).0
    ensures ix.nameById.Keys == ix.byId.Keys
    ensures forall k | k in ix.byId :: ix.nameById[k] == ix.byId[k].name
    ensures forall i, j {:trigger IsFinalOption(Groups(cols), |cols|, i, j)} | IsFinalOption(Groups(cols), |cols|, i, j) :: ix.byId[Entry(cols, i, j).0] == OptionsOf(cols[i])[j]
  {
    var gs := Groups(cols);
    ColumnKeys(cols);
    IndexUpTo(gs, |cols|)
  }

  /** The keys the groups of `cols` register, stated in terms of the columns. */
  lemma ColumnKeys(cols: seq<Column>)
    ensures KeysUpTo(Groups(cols), |cols|) ==
      set i, j | 0 <= i < |cols| && 0 <= j < |OptionsOf(cols[i])| :: Entry(cols, i, j).0
  {
    var gs := Groups(cols);
    forall k | k in KeysUpTo(gs, |cols|)
      ensures k in set i, j | 0 <= i < |cols| && 0 <= j < |OptionsOf(cols[i])| :: Entry(cols, i, j).0
    {
      var i, j :| 0 <= i < |cols| && 0 <= j < |gs[i]| && k == gs[i][j].0;
      assert k == Entry(cols, i, j).0;
    }
  }
}
