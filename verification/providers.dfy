/**
 The provider table: institution code to institution name, folded from the
 rows of the providers CSV file. Rows arrive already split into cells.
 */
module Providers {
  import opened JsSemantics

  /** One already-split CSV row. */
  type Row = seq<string>

  /** `e[i]`: the cell at position `i`, or `undefined` past the row's end. */
  function Cell(row: Row, i: nat): JsValue {
    if i < |row| then Str(row[i]) else Undefined
  }

  /** The provider object `providers`: a key maps to whatever the row held
      in its second cell, which can itself be `undefined`. */
  type ProviderTable = map<string, JsValue>

  /** The key a provider row is stored under: `e[0]` as a property key. */
  function CodeOf(row: Row): string {
    PropertyKey(Cell(row, 0))
  }

  /** `rows.forEach(e => { providers[e[0]] = e[1]; })`, starting from `table`. */
  function LoadInto(table: ProviderTable, rows: seq<Row>): (r: ProviderTable)
    ensures r.Keys == table.Keys + set row | row in rows :: CodeOf(row)
    decreases rows
  {
    if rows == [] then table
    else
      assert rows == [rows[0]] + rows[1..];
      LoadInto(table[CodeOf(rows[0]) := Cell(rows[0], 1)], rows[1..])
  }

  /** The table as loaded at start-up, from the initially empty object. */
  function Load(rows: seq<Row>): (r: ProviderTable)
    ensures r.Keys == set row | row in rows :: CodeOf(row)
  {
    LoadInto(map[], rows)
  }

  /** A key no row mentions keeps whatever the starting table held. */
  lemma {:induction false} UntouchedKeyKept(table: ProviderTable, rows: seq<Row>, code: string)
    requires forall row :: row in rows ==> CodeOf(row) != code
    ensures code in LoadInto(table, rows) <==> code in table
    ensures code in table ==> LoadInto(table, rows)[code] == table[code]
    decreases rows
  {
    if rows != [] {
      UntouchedKeyKept(table[CodeOf(rows[0]) := Cell(rows[0], 1)], rows[1..], code);
    }
  }

  /** Later rows overwrite earlier ones: a code maps to the second cell of
      the last row carrying it. */
  lemma {:induction false} LastRowWins(table: ProviderTable, rows: seq<Row>, i: nat)
    requires i < |rows|
    requires forall j :: i < j < |rows| ==> CodeOf(rows[j]) != CodeOf(rows[i])
    ensures CodeOf(rows[i]) in LoadInto(table, rows)
    ensures LoadInto(table, rows)[CodeOf(rows[i])] == Cell(rows[i], 1)
    decreases rows
  {
    var next := table[CodeOf(rows[0]) := Cell(rows[0], 1)];
    if i == 0 {
      forall row | row in rows[1..] ensures CodeOf(row) != CodeOf(rows[0]) {
        var j :| 0 <= j < |rows[1..]| && rows[1..][j] == row;
        assert rows[j + 1] == row;
      }
      UntouchedKeyKept(next, rows[1..], CodeOf(rows[0]));
    } else {
      LastRowWins(next, rows[1..], i - 1);
    }
  }

  /** The start-up table: each code of the providers file maps to the second
      cell of its last row. */
  lemma LoadedTableLastRowWins(rows: seq<Row>)
    ensures forall i :: 0 <= i < |rows| && (forall j :: i < j < |rows| ==> CodeOf(rows[j]) != CodeOf(rows[i])) ==>
              CodeOf(rows[i]) in Load(rows) && Load(rows)[CodeOf(rows[i])] == Cell(rows[i], 1)
  {
    forall i | 0 <= i < |rows| && (forall j :: i < j < |rows| ==> CodeOf(rows[j]) != CodeOf(rows[i]))
      ensures CodeOf(rows[i]) in Load(rows) && Load(rows)[CodeOf(rows[i])] == Cell(rows[i], 1)
    {
      LastRowWins(map[], rows, i);
    }
  }
}
