/**
 * The generic data table: rows of type `T`, each identified by the key the
 * `keyExtractor` prop computes, an optional selection column, and the
 * placeholder row whose `colSpan` should cover the whole header. The
 * selection is a set of keys that the toggles replace; the `onSelect`
 * callback's argument is the value the toggles return.
 */
module DataTable {
  import opened Common

  /** The keys of the rows, `new Set(data.map(keyExtractor))`. */
  function KeysOf<T(!new), K(==,!new)>(data: seq<T>, keyOf: T -> K): (keys: set<K>)
    ensures forall row :: row in data ==> keyOf(row) in keys
    ensures forall k :: k in keys ==> exists row :: row in data && keyOf(row) == k
  {
    if data == [] then {} else {keyOf(data[0])} + KeysOf(data[1..], keyOf)
  }

  /** With distinct keys there are as many keys as rows. */
  lemma {:induction false} DistinctKeysCount<T(!new), K(!new)>(data: seq<T>, keyOf: T -> K)
    requires DistinctKeys(data, keyOf)
    ensures |KeysOf(data, keyOf)| == |data|
  {
    if data != [] {
      var rest := data[1..];
      assert DistinctKeys(rest, keyOf) by {
        forall i, j | 0 <= i < j < |rest| ensures keyOf(rest[i]) != keyOf(rest[j]) {
          assert rest[i] == data[i + 1] && rest[j] == data[j + 1];
        }
      }
      DistinctKeysCount(rest, keyOf);
      assert keyOf(data[0]) !in KeysOf(rest, keyOf) by {
        forall row | row in rest ensures keyOf(row) != keyOf(data[0]) {
          var j :| 0 <= j < |rest| && rest[j] == row;
          assert data[j + 1] == row;
        }
      }
    }
  }

  /** The set with the membership of `key` flipped. */
  function Toggled<K(==,!new)>(selected: set<K>, key: K): (r: set<K>)
    ensures key in r <==> key !in selected
    ensures forall k :: k != key ==> (k in r <==> k in selected)
  {
    if key in selected then selected - {key} else selected + {key}
  }

  /** Toggling the same key twice restores the selection. */
  lemma ToggleTwice<K(!new)>(selected: set<K>, key: K)
    ensures Toggled(Toggled(selected, key), key) == selected
  {
    var once := Toggled(selected, key);
    var twice := Toggled(once, key);
    assert forall k :: k in twice <==> k in selected;
  }

  /** The rows handed to `onSelect`: those whose key is selected, in table order. */
  function SelectedRows<T(!new), K(==,!new)>(data: seq<T>, keyOf: T -> K, selected: set<K>): (rows: seq<T>)
    ensures forall row :: row in rows <==> row in data && keyOf(row) in selected
  {
    Filter(data, row => keyOf(row) in selected)
  }

  lemma SubsetOfSameSize<K>(a: set<K>, b: set<K>)
    requires a <= b && |a| == |b|
    ensures a == b
  {
    assert b == a + (b - a);
    assert |b - a| == 0;
  }

  /**
   * With distinct keys and a selection of keys of the current rows, the
   * header checkbox is checked exactly when every row is selected. A key left
   * over from earlier rows breaks this: see `StaleSelectionChecksHeader`.
   */
  lemma HeaderCheckedIffAllSelected<T(!new), K(!new)>(data: seq<T>, keyOf: T -> K, selected: set<K>)
    requires DistinctKeys(data, keyOf)
    requires selected <= KeysOf(data, keyOf)
    ensures HeaderChecked(|data|, selected) <==> |data| > 0 && selected == KeysOf(data, keyOf)
  {
    DistinctKeysCount(data, keyOf);
    if |selected| == |data| {
      SubsetOfSameSize(selected, KeysOf(data, keyOf));
    }
  }

  /** The header checkbox: `data.length > 0 && selected.size === data.length`. */
  predicate HeaderChecked<K(==)>(rows: nat, selected: set<K>) {
    rows > 0 && |selected| == rows
  }

  class SelectionTable<T(!new), K(==,!new)> {
    var data: seq<T>
    const keyOf: T -> K
    var selected: set<K>

    constructor (data: seq<T>, keyOf: T -> K)
      ensures this.data == data && this.keyOf == keyOf && selected == {}
    {
      this.data := data;
      this.keyOf := keyOf;
      selected := {};
    }

    /** A new `data` prop, such as a freshly filtered list: the `selected` state is kept as it is. */
    method SetData(rows: seq<T>)
      modifies this`data
      ensures data == rows && selected == old(selected)
    {
      data := rows;
    }

    /** `toggleSelect(key)`: flips one key and reports the selected rows. */
    method ToggleSelect(key: K) returns (emitted: seq<T>)
      modifies this`selected
      ensures selected == Toggled(old(selected), key)
      ensures emitted == SelectedRows(data, keyOf, selected)
    {
      var next := selected;
      if key in next {
        next := next - {key};
      } else {
        next := next + {key};
      }
      selected := next;
      emitted := SelectedRows(data, keyOf, next);
    }

    /** `toggleSelectAll()`: clears a selection as large as the table, else selects every row. */
    method ToggleSelectAll() returns (emitted: seq<T>)
      modifies this`selected
      ensures |old(selected)| == |data| ==> selected == {} && emitted == []
      ensures |old(selected)| != |data| ==> selected == KeysOf(data, keyOf) && emitted == data
    {
      if |selected| == |data| {
        selected := {};
        emitted := [];
      } else {
        selected := KeysOf(data, keyOf);
        emitted := data;
      }
    }
  }

  /**
   * On a non-empty table with distinct keys, "select all" checks the header
   * and selects every row; a second click clears everything.
   */
  method SelectAllTwice<T(!new), K(==,!new)>(data: seq<T>, keyOf: T -> K)
    returns (first: seq<T>, checked: bool, second: seq<T>, cleared: bool)
    requires |data| > 0 && DistinctKeys(data, keyOf)
    ensures first == data && checked
    ensures second == [] && cleared
  {
    var table := new SelectionTable(data, keyOf);
    first := table.ToggleSelectAll();
    DistinctKeysCount(data, keyOf);
    checked := HeaderChecked(|data|, table.selected);
    second := table.ToggleSelectAll();
    cleared := table.selected == {};
  }

  /** Rows keyed by themselves, for the example below. */
  function RowKey(row: string): string {
    row
  }

  /**
   * A selection outlives a change of rows: select row "1" of "1", "2", "3",
   * then narrow the table to row "2". The header is checked although row "2"
   * is not selected, and clicking it clears the selection instead of
   * selecting the row.
   */
  method StaleSelectionChecksHeader() returns (checked: bool, rowSelected: bool, emitted: seq<string>)
    ensures checked && !rowSelected
    ensures emitted == []
  {
    var table := new SelectionTable(["1", "2", "3"], RowKey);
    var shown := table.ToggleSelect("1");
    assert table.selected == {"1"};
    table.SetData(["2"]);
    checked := HeaderChecked(|table.data|, table.selected);
    rowSelected := RowKey("2") in table.selected;
    emitted := table.ToggleSelectAll();
  }

  // ---------------------------------------------------------------------
  // Column spans

  /** Cells in the header row (and in every data row): a leading cell when any handler is given, the columns, and a menu cell for edit or delete. */
  function HeaderCells(columns: nat, hasEdit: bool, hasDelete: bool, hasSelect: bool): nat {
    (if hasEdit || hasDelete || hasSelect then 1 else 0) + columns + (if hasEdit || hasDelete then 1 else 0)
  }

  /** The `colSpan` of the loading and "No results." rows, as written. */
  function ColSpanAsWritten(columns: nat, hasEdit: bool, hasDelete: bool, hasSelect: bool): (span: nat)
    ensures span >= HeaderCells(columns, hasEdit, hasDelete, hasSelect)
    ensures span == HeaderCells(columns, hasEdit, hasDelete, hasSelect) <==> !(hasSelect && !hasEdit && !hasDelete)
  {
    columns + (if hasEdit || hasDelete || hasSelect then 2 else 0)
  }

  /** A table with a selection column but no edit or delete handler: the placeholder row spans one column too many. */
  lemma ColSpanOvershootsSelectOnly()
    ensures ColSpanAsWritten(3, false, false, true) == 5
    ensures HeaderCells(3, false, false, true) == 4
  {
  }

  /** The span the placeholder rows need: exactly the header's cells. */
  function ColSpan(columns: nat, hasEdit: bool, hasDelete: bool, hasSelect: bool): (span: nat)
    ensures span == HeaderCells(columns, hasEdit, hasDelete, hasSelect)
    ensures span >= columns
    ensures span <= columns + 2
    ensures span == ColSpanAsWritten(columns, hasEdit, hasDelete, hasSelect) || (hasSelect && !hasEdit && !hasDelete)
  {
    columns + (if hasEdit || hasDelete || hasSelect then 1 else 0) + (if hasEdit || hasDelete then 1 else 0)
  }
}
