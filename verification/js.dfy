/**
 The slice of JavaScript semantics the table transform relies on: dynamic
 values, truthiness, the string a value becomes inside a template literal,
 and plain objects built by successive property writes.
 */
module Js {
  import opened Wrappers

  /** A JSON-like dynamic value. Numbers are restricted to integers. */
  datatype Value =
    | Undefined
    | Null
    | Bool(b: bool)
    | Num(n: int)
    | Str(s: string)
    | Arr(elems: seq<Value>)
    | Obj(fields: seq<(string, Value)>)

  /** JavaScript truthiness: `undefined`, `null`, `false`, `0` and `""` are falsy. */
  predicate Truthy(v: Value) {
    match v
    case Undefined => false
    case Null => false
    case Bool(b) => b
    case Num(n) => n != 0
    case Str(s) => s != ""
    case Arr(_) => true
    case Obj(_) => true
  }

  /** Decimal digits of a natural number, most significant first. */
  function NatToDecimal(n: nat): (r: string)
    ensures |r| > 0
    decreases n
  {
    var d := "0123456789"[n % 10];
    if n < 10 then [d] else NatToDecimal(n / 10) + [d]
  }

  /** Joins `parts` with `sep` in between, as `Array.prototype.join` does. */
  function Join(parts: seq<string>, sep: string): string {
    if |parts| == 0 then ""
    else if |parts| == 1 then parts[0]
    else parts[0] + sep + Join(parts[1..], sep)
  }

  /** The string a value becomes when interpolated into a template literal (`${v}`). */
  function ToKey(v: Value): (k: string)
    ensures v.Str? ==> k == v.s
    decreases v
  {
    match v
    case Undefined => "undefined"
    case Null => "null"
    case Bool(b) => if b then "true" else "false"
    case Num(n) => if n < 0 then "-" + NatToDecimal(-n) else NatToDecimal(n)
    case Str(s) => s
    case Arr(es) =>
      // Array.prototype.toString joins the elements with ",", writing
      // null and undefined elements as empty strings.
      Join(seq(|es|, i requires 0 <= i < |es| =>
                 if es[i].Undefined? || es[i].Null? then "" else ToKey(es[i])), ",")
    case Obj(_) => "[object Object]"
  }

  /** The keys that `writes` assigns (skipped writes assign nothing). */
  function WrittenKeys<V>(writes: seq<Option<(string, V)>>): (ks: set<string>)
    ensures forall i | 0 <= i < |writes| && writes[i].Some? :: writes[i].value.0 in ks
  {
    set i | 0 <= i < |writes| && writes[i].Some? :: writes[i].value.0
  }

  /** Write `i` assigns a key that no later write assigns again. */
  predicate IsFinalWrite<V>(writes: seq<Option<(string, V)>>, i: int) {
    && 0 <= i < |writes|
    && writes[i].Some?
    && forall j | i < j < |writes| :: writes[j].None? || writes[j].value.0 != writes[i].value.0
  }

  /**
   The object obtained by performing `writes` in order on `base`: `Some((k, v))`
   is the assignment `o[k] = v`, `None` is a skipped write. A later write to a
   key overwrites an earlier one, and keys nobody writes keep their base value.
   */
  function Apply<V>(base: map<string, V>, writes: seq<Option<(string, V)>>): (m: map<string, V>)
    ensures m.Keys == base.Keys + WrittenKeys(writes)
    ensures forall i {:trigger IsFinalWrite(writes, i)} | IsFinalWrite(writes, i) :: m[writes[i].value.0] == writes[i].value.1
    ensures forall k | k in base && k !in WrittenKeys(writes) :: m[k] == base[k]
    decreases |writes|
  {
    if |writes| == 0 then base
    else
      var n := |writes| - 1;
      var prefix := writes[..n];
      var w := writes[n];
      var prev := Apply(base, prefix);
      var m := if w.Some? then prev[w.value.0 := w.value.1] else prev;
      assert writes == prefix + [w];
      ApplyStep(base, prefix, w, prev, m);
      m
  }

  /** Appending one write to a sequence of writes keeps the contract of `Apply`. */
  lemma ApplyStep<V>(base: map<string, V>, prefix: seq<Option<(string, V)>>, w: Option<(string, V)>,
                     prev: map<string, V>, m: map<string, V>)
    requires prev.Keys == base.Keys + WrittenKeys(prefix)
    requires forall i | IsFinalWrite(prefix, i) :: prev[prefix[i].value.0] == prefix[i].value.1
    requires forall k | k in base && k !in WrittenKeys(prefix) :: prev[k] == base[k]
    requires m == if w.Some? then prev[w.value.0 := w.value.1] else prev
    ensures m.Keys == base.Keys + WrittenKeys(prefix + [w])
    ensures forall i | IsFinalWrite(prefix + [w], i) :: m[(prefix + [w])[i].value.0] == (prefix + [w])[i].value.1
    ensures forall k | k in base && k !in WrittenKeys(prefix + [w]) :: m[k] == base[k]
  {
    var writes := prefix + [w];
    var n := |prefix|;
    SnocWrite(writes);
    assert writes[..n] == prefix;
    forall i | IsFinalWrite(writes, i)
      ensures m[writes[i].value.0] == writes[i].value.1
    {
      if i < n {
        assert IsFinalWrite(prefix, i);
        assert prefix[i] == writes[i];
      }
    }
  }

  /** How the written keys and the final writes change when one write is appended. */
  lemma SnocWrite<V>(writes: seq<Option<(string, V)>>)
    requires |writes| > 0
    ensures var n := |writes| - 1;
      WrittenKeys(writes) == WrittenKeys(writes[..n]) + (if writes[n].Some? then {writes[n].value.0} else {})
    ensures var n := |writes| - 1;
      writes[n].Some? ==> IsFinalWrite(writes, n)
    ensures var n := |writes| - 1;
      forall i | 0 <= i < n ::
        IsFinalWrite(writes, i) <==>
        IsFinalWrite(writes[..n], i) && (writes[n].None? || writes[n].value.0 != writes[i].value.0)
  {
    var n := |writes| - 1;
    var prefix := writes[..n];
    assert forall i | 0 <= i < n :: prefix[i] == writes[i];
    assert WrittenKeys(writes) == WrittenKeys(prefix) + (if writes[n].Some? then {writes[n].value.0} else {});
  }

  /** Every key a sequence of writes assigns has a final write. */
  lemma FinalWriteExists<V>(writes: seq<Option<(string, V)>>, k: string) returns (i: int)
    requires k in WrittenKeys(writes)
    ensures IsFinalWrite(writes, i) && writes[i].value.0 == k
    decreases |writes|
  {
    var n := |writes| - 1;
    SnocWrite(writes);
    if writes[n].Some? && writes[n].value.0 == k {
      i := n;
    } else {
      i := FinalWriteExists(writes[..n], k);
      assert writes[..n][i] == writes[i];
    }
  }

  /** Every element of `xs` written under its own key, in order. */
  function WriteAll<V>(xs: seq<(string, V)>): (ws: seq<Option<(string, V)>>)
    ensures |ws| == |xs|
    ensures forall i | 0 <= i < |xs| :: ws[i] == Some(xs[i])
  {
    seq(|xs|, i requires 0 <= i < |xs| => Some(xs[i]))
  }

  /** Entry `i` of `xs` carries a key no later entry repeats. */
  predicate IsLastEntry<V>(xs: seq<(string, V)>, i: int) {
    && 0 <= i < |xs|
    && forall j | i < j < |xs| :: xs[j].0 != xs[i].0
  }

  /**
   The object whose own properties are the entries `xs`, where a repeated key
   keeps its last value (`Object.assign({}, ...)`, or an object literal).
   */
  function FromEntries<V>(xs: seq<(string, V)>): (m: map<string, V>)
    ensures m.Keys == set i | 0 <= i < |xs| :: xs[i].0
    ensures forall i {:trigger IsLastEntry(xs, i)} | IsLastEntry(xs, i) :: m[xs[i].0] == xs[i].1
  {
    var ws := WriteAll(xs);
    assert forall i | 0 <= i < |xs| :: IsLastEntry(xs, i) <==> IsFinalWrite(ws, i);
    assert WrittenKeys(ws) == set i | 0 <= i < |xs| :: xs[i].0;
    Apply(map[], ws)
  }

  /** Every key that occurs among `xs` has a last occurrence. */
  lemma LastEntryExists<V>(xs: seq<(string, V)>, k: string) returns (i: int)
    requires k in set i | 0 <= i < |xs| :: xs[i].0
    ensures IsLastEntry(xs, i) && xs[i].0 == k
  {
    var ws := WriteAll(xs);
    assert WrittenKeys(ws) == set i | 0 <= i < |xs| :: xs[i].0;
    i := FinalWriteExists(ws, k);
  }

  /** Property lookup: `o[k]`, which is `undefined` for a missing key. */
  function Get(o: map<string, Value>, k: string): (r: Value)
    ensures k !in o ==> r == Undefined
    ensures k in o ==> r == o[k]
  {
    if k in o then o[k] else Undefined
  }
}
