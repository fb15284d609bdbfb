/**
 * The shape check a store's location metadata must pass: a tree of dicts and
 * lists whose every leaf is unicode text. The walk threads a key path into the
 * error it raises for the first bad leaf.
 */
module Metadata {
  import opened Wrappers
  import opened Errors
  import Text

  /**
   * A metadata value as a backend returns it. A dict keeps its entries in
   * iteration order, so which bad leaf is reported first is determined.
   * `MOther` is any other Python value (an int, a byte string, None, ...),
   * named by its type.
   */
  datatype MVal =
    | MDict(entries: seq<(string, MVal)>)
    | MList(items: seq<MVal>)
    | MText(text: string)
    | MOther(typeName: string)

  /** Every leaf of the tree is unicode text. */
  predicate AllText(v: MVal) {
    match v
    case MDict(es) => forall i :: 0 <= i < |es| ==> AllText(es[i].1)
    case MList(xs) => forall i :: 0 <= i < |xs| ==> AllText(xs[i])
    case MText(_) => true
    case MOther(_) => false
  }

  /** The key path of the element at index `ndx` of a list reached under `key`: `key[ndx]`. */
  function IndexPath(key: string, ndx: nat): string {
    key + "[" + Text.NatToString(ndx) + "]"
  }

  /** The error raised for a leaf of type `typeName` reached under `key`. */
  function InvalidLeaf(key: string, typeName: string): Error {
    BackendException(InvalidLeafType(key, typeName))
  }

  /** The number of children of a dict or a list; leaves have none. */
  function Width(v: MVal): nat {
    match v
    case MDict(es) => |es|
    case MList(xs) => |xs|
    case _ => 0
  }

  /** `check_location_metadata(val, key)`. */
  function Check(v: MVal, key: string): (r: Result<(), Error>)
    ensures r.Ok? <==> AllText(v)
    ensures r.Err? ==> r.error.BackendException? && r.error.fault.InvalidLeafType?
    decreases v, Width(v) + 1
  {
    match v
    case MDict(es) => CheckEntries(es, 0)
    case MList(xs) => CheckItems(xs, key, 0)
    case MText(_) => Ok(())
    case MOther(t) => Err(InvalidLeaf(key, t))
  }

  /** The dict loop from entry `from` on: each value is checked under its own key. */
  function CheckEntries(es: seq<(string, MVal)>, from: nat): (r: Result<(), Error>)
    requires from <= |es|
    ensures r.Ok? <==> forall i :: from <= i < |es| ==> AllText(es[i].1)
    ensures r.Err? ==> r.error.BackendException? && r.error.fault.InvalidLeafType?
    decreases MDict(es), |es| - from
  {
    if from == |es| then Ok(())
    else
      var r := Check(es[from].1, es[from].0);
      if r.Err? then r else CheckEntries(es, from + 1)
  }

  /** The list loop from index `ndx` on: the element at `ndx` is checked under `key[ndx]`. */
  function CheckItems(xs: seq<MVal>, key: string, ndx: nat): (r: Result<(), Error>)
    requires ndx <= |xs|
    ensures r.Ok? <==> forall i :: ndx <= i < |xs| ==> AllText(xs[i])
    ensures r.Err? ==> r.error.BackendException? && r.error.fault.InvalidLeafType?
    decreases MList(xs), |xs| - ndx
  {
    if ndx == |xs| then Ok(())
    else
      var r := Check(xs[ndx], IndexPath(key, ndx));
      if r.Err? then r else CheckItems(xs, key, ndx + 1)
  }

  lemma {:induction false} CheckItemsReportsFirstBad(xs: seq<MVal>, key: string, ndx: nat, i: nat)
    requires ndx <= i < |xs|
    requires forall j :: ndx <= j < i ==> AllText(xs[j])
    requires !AllText(xs[i])
    ensures CheckItems(xs, key, ndx) == Check(xs[i], IndexPath(key, i))
    decreases i - ndx
  {
    if ndx < i {
      assert AllText(xs[ndx]);
      CheckItemsReportsFirstBad(xs, key, ndx + 1, i);
    }
  }

  lemma {:induction false} CheckEntriesReportsFirstBad(es: seq<(string, MVal)>, from: nat, i: nat)
    requires from <= i < |es|
    requires forall j :: from <= j < i ==> AllText(es[j].1)
    requires !AllText(es[i].1)
    ensures CheckEntries(es, from) == Check(es[i].1, es[i].0)
    decreases i - from
  {
    if from < i {
      assert AllText(es[from].1);
      CheckEntriesReportsFirstBad(es, from + 1, i);
    }
  }

  /**
   * A list reached under `key` whose first bad element sits at index `i`
   * reports what that element reports when checked under the path `key[i]`.
   */
  lemma CheckListReportsIndex(xs: seq<MVal>, key: string, i: nat)
    requires i < |xs|
    requires forall j :: 0 <= j < i ==> AllText(xs[j])
    requires !AllText(xs[i])
    ensures Check(MList(xs), key) == Check(xs[i], IndexPath(key, i))
  {
    CheckItemsReportsFirstBad(xs, key, 0, i);
  }

  /** In particular a non-text leaf at list index `i` under `key` is reported as `key[i]`. */
  lemma CheckListLeafPath(xs: seq<MVal>, key: string, i: nat)
    requires i < |xs| && xs[i].MOther?
    requires forall j :: 0 <= j < i ==> AllText(xs[j])
    ensures Check(MList(xs), key) == Err(InvalidLeaf(IndexPath(key, i), xs[i].typeName))
  {
    CheckListReportsIndex(xs, key, i);
  }

  /**
   * Entering a dict restarts the path: whatever key the dict was reached
   * under, its first bad entry is checked under that entry's own key.
   */
  lemma CheckDictReportsOwnKey(es: seq<(string, MVal)>, key: string, i: nat)
    requires i < |es|
    requires forall j :: 0 <= j < i ==> AllText(es[j].1)
    requires !AllText(es[i].1)
    ensures Check(MDict(es), key) == Check(es[i].1, es[i].0)
  {
    CheckEntriesReportsFirstBad(es, 0, i);
  }

  /**
   * A bad leaf inside a dict that sits in a list is reported under the inner
   * dict's key alone: the list index and the outer key are not part of the path.
   */
  lemma ListOfDictsLosesIndex(outer: string, inner: string, typeName: string)
    ensures Check(MDict([(outer, MList([MDict([(inner, MOther(typeName))])]))]), "")
         == Err(InvalidLeaf(inner, typeName))
  {
    var leaf := MOther(typeName);
    var d := MDict([(inner, leaf)]);
    assert !AllText(d.entries[0].1);
    assert !AllText(MList([d]).items[0]);
    CheckDictReportsOwnKey([(outer, MList([d]))], "", 0);
    CheckListReportsIndex([d], outer, 0);
    CheckDictReportsOwnKey([(inner, leaf)], IndexPath(outer, 0), 0);
  }
}
