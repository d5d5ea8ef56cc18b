/**
 The record decoder: each already-split row of the directory file becomes
 one branch record, its institution name looked up in the provider table.
 */
module Decoder {
  import opened JsSemantics
  import opened Providers

  /** One branch of the directory. Cells past a short row's end are
      `undefined`; the institution name is always a string. */
  datatype BranchRecord = BranchRecord(
    bsb: JsValue,
    instituteCode: JsValue,
    instituteName: string,
    name: JsValue,
    address: JsValue,
    city: JsValue,
    state: JsValue,
    postcode: JsValue)

  /** The name used when the provider table has no usable entry. */
  const UnknownBank: string := "Unknown Bank"

  /** `providers[code] || 'Unknown Bank'`. */
  function InstituteName(providers: ProviderTable, code: JsValue): (r: string)
    ensures var key := PropertyKey(code);
            r == (if key in providers && Truthy(providers[key]) then providers[key].s else UnknownBank)
  {
    var key := PropertyKey(code);
    if key in providers then
      match providers[key]
      case Str(s) => if s != "" then s else UnknownBank
      case Undefined => UnknownBank
    else UnknownBank
  }

  /** The positional mapping of one row: a row of at least seven cells
      gives a complete record that re-encodes to those seven cells, and the
      institution name is never empty. */
  function DecodeRow(providers: ProviderTable, row: Row): (r: BranchRecord)
    ensures |row| >= 7 ==> Complete(r) && EncodeRow(r) == row[..7]
    ensures r.instituteName != ""
  {
    BranchRecord(
      bsb := Cell(row, 0),
      instituteCode := Cell(row, 1),
      instituteName := InstituteName(providers, Cell(row, 1)),
      name := Cell(row, 2),
      address := Cell(row, 3),
      city := Cell(row, 4),
      state := Cell(row, 5),
      postcode := Cell(row, 6))
  }

  /** `data.map(e => {...})`: one record per row, in row order. */
  function Decode(providers: ProviderTable, rows: seq<Row>): (r: seq<BranchRecord>)
    ensures |r| == |rows|
    ensures forall i :: 0 <= i < |rows| ==>
              && r[i].bsb == Cell(rows[i], 0)
              && r[i].instituteCode == Cell(rows[i], 1)
              && r[i].name == Cell(rows[i], 2)
              && r[i].address == Cell(rows[i], 3)
              && r[i].city == Cell(rows[i], 4)
              && r[i].state == Cell(rows[i], 5)
              && r[i].postcode == Cell(rows[i], 6)
    ensures forall i :: 0 <= i < |rows| ==> r[i].instituteName == InstituteName(providers, Cell(rows[i], 1))
  {
    if rows == [] then []
    else [DecodeRow(providers, rows[0])] + Decode(providers, rows[1..])
  }

  /** Decoding distributes over concatenation of the input rows. */
  lemma {:induction false} DecodeAppend(providers: ProviderTable, a: seq<Row>, b: seq<Row>)
    ensures Decode(providers, a + b) == Decode(providers, a) + Decode(providers, b)
  {
    if a == [] {
      assert a + b == b;
    } else {
      assert (a + b)[1..] == a[1..] + b;
      DecodeAppend(providers, a[1..], b);
    }
  }

  /** A record whose seven cells are all strings, and the CSV row that
      carries it. */
  predicate Complete(r: BranchRecord) {
    r.bsb.Str? && r.instituteCode.Str? && r.name.Str? && r.address.Str?
    && r.city.Str? && r.state.Str? && r.postcode.Str?
  }

  function EncodeRow(r: BranchRecord): Row
    requires Complete(r)
  {
    [r.bsb.s, r.instituteCode.s, r.name.s, r.address.s, r.city.s, r.state.s, r.postcode.s]
  }

  /** A seven-cell row survives decoding and re-encoding unchanged. */
  lemma RowRoundTrip(providers: ProviderTable, row: Row)
    requires |row| == 7
    ensures Complete(DecodeRow(providers, row))
    ensures EncodeRow(DecodeRow(providers, row)) == row
  {
  }

  /** A complete record whose name agrees with the table survives encoding
      and decoding unchanged. */
  lemma RecordRoundTrip(providers: ProviderTable, r: BranchRecord)
    requires Complete(r)
    requires r.instituteName == InstituteName(providers, r.instituteCode)
    ensures DecodeRow(providers, EncodeRow(r)) == r
  {
  }

  /** A code present with a non-empty name resolves to that name; any other
      code resolves to the default. */
  lemma InstituteNameResolution(providers: ProviderTable, row: Row)
    requires |row| >= 2
    ensures row[1] in providers && Truthy(providers[row[1]]) ==>
              DecodeRow(providers, row).instituteName == providers[row[1]].s
    ensures row[1] !in providers ==> DecodeRow(providers, row).instituteName == UnknownBank
  {
  }

  /** Table `{"062": "Commonwealth Bank"}` and row
      `062-000,062,Branch A,1 Main St,Sydney,NSW,2000`. */
  lemma CommonwealthExample()
    ensures var row := ["062-000", "062", "Branch A", "1 Main St", "Sydney", "NSW", "2000"];
            var rec := Decode(map["062" := Str("Commonwealth Bank")], [row])[0];
            rec.instituteName == "Commonwealth Bank" && rec.bsb == Str("062-000") && rec.postcode == Str("2000")
  {
  }
}
