/**
 The read side: the `/health` report and the `/bsb/:bsb` point lookup over
 the currently published records and the provider table.
 */
module Queries {
  import opened Wrappers
  import opened JsSemantics
  import opened Providers
  import opened Decoder

  /** The `/health` response: its JSON body and its HTTP status. */
  datatype HealthReport = HealthReport(healthy: bool, count: nat, providerCount: nat, status: int)

  /** The status is chosen by one test (either count zero) and the body's
      `healthy` flag by another (both counts nonzero); they always agree. */
  function Health(records: seq<BranchRecord>, providers: ProviderTable): (h: HealthReport)
    ensures h.count == |records| && h.providerCount == |providers|
    ensures h.healthy <==> records != [] && providers != map[]
    ensures h.status == 503 <==> !h.healthy
    ensures h.status == 200 <==> h.healthy
  {
    var count, providerCount := |records|, |providers.Keys|;
    var status := if count == 0 || providerCount == 0 then 503 else 200;
    assert providerCount == 0 <==> providers == map[] by {
      if providerCount != 0 {
        var k :| k in providers.Keys;
      }
    }
    HealthReport(count != 0 && providerCount != 0, count, providerCount, status)
  }

  /** The position of the first record at or after `from` whose `bsb` is
      exactly `query` (`e.bsb === bsb`; an `undefined` bsb never matches). */
  function FindFrom(records: seq<BranchRecord>, query: string, from: nat): (r: Option<nat>)
    requires from <= |records|
    ensures r.Some? ==> from <= r.value < |records| && records[r.value].bsb == Str(query)
    ensures r.Some? ==> forall j :: from <= j < r.value ==> records[j].bsb != Str(query)
    ensures r.None? ==> forall j :: from <= j < |records| ==> records[j].bsb != Str(query)
    decreases |records| - from
  {
    if from == |records| then None
    else if records[from].bsb == Str(query) then Some(from)
    else FindFrom(records, query, from + 1)
  }

  /** The `/bsb/:bsb` response. */
  datatype LookupResponse = Found(record: BranchRecord) | NotFound(error: string) {
    function Status(): int {
      if Found? then 200 else 404
    }
  }

  const NotFoundMessage: string := "BSB not found"

  /** Position `k` holds the first record keyed `query`. */
  predicate FirstMatchAt(records: seq<BranchRecord>, query: string, k: int) {
    && 0 <= k < |records|
    && records[k].bsb == Str(query)
    && forall j :: 0 <= j < k ==> records[j].bsb != Str(query)
  }

  /** `bsbData.find(e => e.bsb === bsb)`, answered with the record or a 404. */
  function Lookup(records: seq<BranchRecord>, query: string): (resp: LookupResponse)
    ensures resp.NotFound? <==> forall r :: r in records ==> r.bsb != Str(query)
    ensures resp.NotFound? ==> resp.error == NotFoundMessage && resp.Status() == 404
    ensures resp.Found? ==> resp.Status() == 200
    ensures resp.Found? ==> exists k :: FirstMatchAt(records, query, k) && records[k] == resp.record
  {
    match FindFrom(records, query, 0)
    case Some(k) =>
      assert FirstMatchAt(records, query, k);
      Found(records[k])
    case None => NotFound(NotFoundMessage)
  }

  /** A query for a key no record carries is answered with 404. */
  lemma UnknownKeyExample()
    ensures var rec := BranchRecord(Str("062-000"), Str("062"), "Commonwealth Bank",
                                    Str("Branch A"), Str("1 Main St"), Str("Sydney"), Str("NSW"), Str("2000"));
            Lookup([rec], "999-999") == NotFound("BSB not found")
  {
  }
}
