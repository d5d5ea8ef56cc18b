/**
 The sync cycle: read the marker of the last fetched file, list the remote
 directory, resolve the latest file, then either download it, record its
 name and reload, or skip the download and reload the cached copy.

 The cycle is split in two. `Step` is the pure decision: from the marker,
 the listing outcome and the download outcome it yields the new marker, the
 ordered effects the source performs, and the failure that ended the cycle
 early, if any. `Cycle` runs those effects against a `Store` holding the
 marker file, the staged `data.csv` payload and the published records.
 */
module Sync {
  import opened Wrappers
  import opened Resolver
  import opened Providers
  import opened Decoder
  import opened Queries

  /** The content of the downloaded `data.csv`, already split into rows. */
  type Payload = seq<Row>

  /** What `client.list` reported. */
  datatype ListOutcome = ListFailed | Listed(files: seq<FileEntry>)

  /** What `client.get` delivered for the requested name. */
  datatype FetchOutcome = FetchFailed | Fetched(payload: Payload)

  /** The branch taken once the listing is known. */
  datatype Decision =
    | AbortOnListError
    | AbortNoCandidate
    | Download(name: string)
    | AlreadySynced(name: string)

  /** The marker is the content of `download-info.txt`; a missing file reads
      as `null` (None) and compares unequal to every name. */
  function Decide(marker: Option<string>, listing: ListOutcome): (d: Decision)
    ensures d.AbortOnListError? <==> listing.ListFailed?
    ensures d.AbortNoCandidate? <==> listing.Listed? && Resolve(listing.files).None?
    ensures d.Download? <==>
              listing.Listed? && Resolve(listing.files).Some?
              && marker != Some(Resolve(listing.files).value.name)
    ensures d.AlreadySynced? ==> marker == Some(d.name)
    ensures d.Download? || d.AlreadySynced? ==>
              listing.Listed? && Resolve(listing.files).Some?
              && d.name == Resolve(listing.files).value.name
  {
    match listing
    case ListFailed => AbortOnListError
    case Listed(files) =>
      match Resolve(files)
      case None => AbortNoCandidate
      case Some(latest) =>
        if marker.Some? && marker.value == latest.name then AlreadySynced(latest.name)
        else Download(latest.name)
  }

  /** The side effects of a cycle, in the order the source performs them. */
  datatype Effect =
    | FetchFile(name: string)    // `client.get` piped into `data.csv`
    | WriteMarker(name: string)  // `download-info.txt` := name
    | ReloadData                 // `loadDataFile()`

  datatype SyncError = ListError | NoCandidate | FetchError

  /** The outcome of one cycle's decision. */
  datatype Plan = Plan(marker: Option<string>, effects: seq<Effect>, error: Option<SyncError>)

  /** Some effect of the sequence is a download. */
  predicate Fetches(effects: seq<Effect>) {
    exists i :: 0 <= i < |effects| && effects[i].FetchFile?
  }

  /** Every marker write comes after a download and before any reload. */
  predicate WellOrdered(effects: seq<Effect>) {
    && (forall i, j ::
          0 <= i < |effects| && 0 <= j < |effects| && effects[i].WriteMarker? && effects[j].ReloadData?
          ==> i < j)
    && (forall j :: 0 <= j < |effects| && effects[j].WriteMarker? ==>
          exists i :: 0 <= i < j && effects[i] == FetchFile(effects[j].name))
  }

  /** Carries out a decision: the new marker, the effects in source order
      and the failure that ended the cycle, if any. */
  function Carry(marker: Option<string>, d: Decision, fetch: FetchOutcome): (p: Plan)
    // a download is requested exactly on the download branch
    ensures Fetches(p.effects) <==> d.Download?
    // the marker changes only to the downloaded name, and only when the download succeeded
    ensures p.marker != marker ==> d.Download? && fetch.Fetched?
    ensures d.Download? && fetch.Fetched? ==> p.marker == Some(d.name) && WriteMarker(d.name) in p.effects
    ensures forall e :: e in p.effects && e.WriteMarker? ==> d.Download? && e.name == d.name
    // a reload happens exactly when nothing failed
    ensures ReloadData in p.effects <==> p.error.None?
    ensures p.error == Some(ListError) <==> d.AbortOnListError?
    ensures p.error == Some(NoCandidate) <==> d.AbortNoCandidate?
    ensures p.error == Some(FetchError) <==> d.Download? && fetch.FetchFailed?
    ensures p.error.Some? && p.error != Some(FetchError) ==> p.effects == []
    ensures p.error.Some? ==> forall e :: e in p.effects ==> e.FetchFile?
    ensures WellOrdered(p.effects)
  {
    match d
    case AbortOnListError => Plan(marker, [], Some(ListError))
    case AbortNoCandidate => Plan(marker, [], Some(NoCandidate))
    case AlreadySynced(_) => Plan(marker, [ReloadData], None)
    case Download(name) =>
      match fetch
      case FetchFailed =>
        assert [FetchFile(name)][0].FetchFile?;
        Plan(marker, [FetchFile(name)], Some(FetchError))
      case Fetched(_) =>
        var effects := [FetchFile(name), WriteMarker(name), ReloadData];
        assert effects[0] == FetchFile(effects[1].name);
        Plan(Some(name), effects, None)
  }

  /** The decision of one cycle, carried out. */
  function Step(marker: Option<string>, listing: ListOutcome, fetch: FetchOutcome): (p: Plan)
    // a download is requested exactly when a latest file exists and its name differs from the marker
    ensures Fetches(p.effects) <==>
              listing.Listed? && Resolve(listing.files).Some?
              && marker != Some(Resolve(listing.files).value.name)
    // a changed marker is the latest file's name, after a successful download
    ensures p.marker != marker ==>
              fetch.Fetched? && listing.Listed? && Resolve(listing.files).Some?
              && p.marker == Some(Resolve(listing.files).value.name)
    // a delivered download writes the latest name as the new marker
    ensures Fetches(p.effects) && fetch.Fetched? ==>
              && p.marker == Some(Resolve(listing.files).value.name)
              && WriteMarker(Resolve(listing.files).value.name) in p.effects
    // a failed download ends the cycle with FetchError
    ensures p.error == Some(FetchError) <==> Fetches(p.effects) && fetch.FetchFailed?
    ensures p.error == Some(ListError) <==> listing.ListFailed?
    // a reload happens exactly when nothing failed, so never after a failed download
    ensures ReloadData in p.effects <==> p.error.None?
    // a failed cycle at most attempts the download
    ensures p.error.Some? ==> forall e :: e in p.effects ==> e.FetchFile?
    ensures WellOrdered(p.effects)
  {
    Carry(marker, Decide(marker, listing), fetch)
  }

  /** The durable state (`download-info.txt`, `data.csv`) and the published
      records (`bsbData`). */
  datatype Store = Store(marker: Option<string>, staged: Option<Payload>, records: seq<BranchRecord>)

  /** `loadDataFile`: a missing `data.csv` leaves the records alone;
      otherwise the decoded rows replace them as a whole. */
  function Reload(s: Store, providers: ProviderTable): (s': Store)
    ensures s'.marker == s.marker && s'.staged == s.staged
    ensures s.staged.None? ==> s'.records == s.records
    ensures s.staged.Some? ==> s'.records == Decode(providers, s.staged.value)
  {
    match s.staged
    case None => s
    case Some(payload) => s.(records := Decode(providers, payload))
  }

  /** Runs one effect. Each effect touches only its own part of the store:
      a download only the staged file, a marker write only the marker, a
      reload only the published records. */
  function Perform(s: Store, providers: ProviderTable, fetch: FetchOutcome, e: Effect): (s': Store)
    ensures s'.marker != s.marker ==> e.WriteMarker? && s'.marker == Some(e.name)
    ensures s'.staged != s.staged ==> e.FetchFile? && fetch.Fetched? && s'.staged == Some(fetch.payload)
    ensures s'.records != s.records ==>
              e.ReloadData? && s.staged.Some? && s'.records == Decode(providers, s.staged.value)
  {
    match e
    case FetchFile(_) =>
      (match fetch
       case FetchFailed => s
       case Fetched(payload) => s.(staged := Some(payload)))
    case WriteMarker(name) => s.(marker := Some(name))
    case ReloadData => Reload(s, providers)
  }

  /** Runs the effects in order. */
  function Run(s: Store, providers: ProviderTable, fetch: FetchOutcome, effects: seq<Effect>): (r: Store)
    ensures (forall e :: e in effects ==> !e.WriteMarker?) ==> r.marker == s.marker
    ensures r.staged == s.staged || (fetch.Fetched? && r.staged == Some(fetch.payload))
    ensures (forall e :: e in effects ==> !e.FetchFile?) ==> r.staged == s.staged
    ensures ReloadData !in effects ==> r.records == s.records
    decreases |effects|
  {
    if effects == [] then s
    else Run(Perform(s, providers, fetch, effects[0]), providers, fetch, effects[1..])
  }

  /** One full sync cycle against the store. */
  function Cycle(s: Store, providers: ProviderTable, listing: ListOutcome, fetch: FetchOutcome): (r: Store)
    // a cycle that fails changes neither marker, staged file nor published records
    ensures Step(s.marker, listing, fetch).error.Some? ==> r == s
    // the staged file only ever becomes the delivered payload
    ensures r.staged == s.staged || (fetch.Fetched? && r.staged == Some(fetch.payload))
  {
    Run(s, providers, fetch, Step(s.marker, listing, fetch).effects)
  }

  lemma RunSingle(s: Store, providers: ProviderTable, fetch: FetchOutcome, e: Effect)
    ensures Run(s, providers, fetch, [e]) == Perform(s, providers, fetch, e)
  {
    assert [e][1..] == [];
  }

  lemma RunDownload(s: Store, providers: ProviderTable, name: string, payload: Payload)
    ensures Run(s, providers, Fetched(payload), [FetchFile(name), WriteMarker(name), ReloadData])
            == Store(Some(name), Some(payload), Decode(providers, payload))
  {
    var effects := [FetchFile(name), WriteMarker(name), ReloadData];
    assert effects[1..] == [WriteMarker(name), ReloadData];
    assert effects[1..][1..] == [ReloadData];
    var s1 := s.(staged := Some(payload));
    var s2 := s1.(marker := Some(name));
    RunSingle(s2, providers, Fetched(payload), ReloadData);
  }

  /** What a cycle does to the store, branch by branch. */
  lemma CycleByDecision(s: Store, providers: ProviderTable, listing: ListOutcome, fetch: FetchOutcome)
    ensures var s', d := Cycle(s, providers, listing, fetch), Decide(s.marker, listing);
            && (d.AbortOnListError? || d.AbortNoCandidate? ==> s' == s)
            && (d.AlreadySynced? ==> s' == Reload(s, providers))
            && (d.Download? && fetch.FetchFailed? ==> s' == s)
            && (d.Download? && fetch.Fetched? ==>
                  s' == Store(Some(d.name), Some(fetch.payload), Decode(providers, fetch.payload)))
  {
    match Decide(s.marker, listing)
    case AlreadySynced(_) =>
      RunSingle(s, providers, fetch, ReloadData);
    case Download(name) =>
      if fetch.FetchFailed? {
        RunSingle(s, providers, fetch, FetchFile(name));
      } else {
        RunDownload(s, providers, name, fetch.payload);
      }
    case _ =>
  }

  /** Running the plan leaves the marker file holding the plan's marker. */
  lemma CycleWritesPlannedMarker(s: Store, providers: ProviderTable, listing: ListOutcome, fetch: FetchOutcome)
    ensures Cycle(s, providers, listing, fetch).marker == Step(s.marker, listing, fetch).marker
  {
    CycleByDecision(s, providers, listing, fetch);
  }

  /** A failed listing or a listing without candidates ends the cycle with
      nothing fetched, written or republished. */
  lemma ListingFailureChangesNothing(s: Store, providers: ProviderTable, listing: ListOutcome, fetch: FetchOutcome)
    requires listing.ListFailed? || Resolve(listing.files).None?
    ensures Cycle(s, providers, listing, fetch) == s
    ensures !Fetches(Step(s.marker, listing, fetch).effects)
  {
    CycleByDecision(s, providers, listing, fetch);
  }

  /** A failed download leaves marker, staged file and records untouched. */
  lemma FetchFailureChangesNothing(s: Store, providers: ProviderTable, listing: ListOutcome)
    ensures Decide(s.marker, listing).Download? ==> Cycle(s, providers, listing, FetchFailed) == s
  {
    CycleByDecision(s, providers, listing, FetchFailed);
  }

  /** A successful download stages the payload, records the file name and
      publishes the decoded payload. */
  lemma FetchSuccessPublishes(s: Store, providers: ProviderTable, listing: ListOutcome, payload: Payload)
    ensures Decide(s.marker, listing).Download? ==>
              var s' := Cycle(s, providers, listing, Fetched(payload));
              && s'.marker == Some(Resolve(listing.files).value.name)
              && s'.staged == Some(payload)
              && s'.records == Decode(providers, payload)
  {
    CycleByDecision(s, providers, listing, Fetched(payload));
  }

  /** When the latest name equals the marker nothing is fetched, the marker
      stays, and the cached payload (if any) is republished. */
  lemma AlreadySyncedRepublishes(s: Store, providers: ProviderTable, listing: ListOutcome, fetch: FetchOutcome)
    ensures listing.Listed? && Resolve(listing.files).Some? && s.marker == Some(Resolve(listing.files).value.name) ==>
              && !Fetches(Step(s.marker, listing, fetch).effects)
              && Cycle(s, providers, listing, fetch) == Reload(s, providers)
  {
    CycleByDecision(s, providers, listing, fetch);
  }

  /** Publication is whole: after a cycle the records are either the old
      ones untouched or the complete decoding of the staged payload. */
  lemma PublicationIsAtomic(s: Store, providers: ProviderTable, listing: ListOutcome, fetch: FetchOutcome)
    ensures var s' := Cycle(s, providers, listing, fetch);
            s'.records == s.records || (s'.staged.Some? && s'.records == Decode(providers, s'.staged.value))
  {
    CycleByDecision(s, providers, listing, fetch);
  }

  /** A cycle that ends in failure leaves the published records, and so the
      health report, as they were. */
  lemma FailedCycleKeepsHealth(s: Store, providers: ProviderTable, listing: ListOutcome, fetch: FetchOutcome)
    requires Step(s.marker, listing, fetch).error.Some?
    ensures Cycle(s, providers, listing, fetch).records == s.records
    ensures Health(Cycle(s, providers, listing, fetch).records, providers) == Health(s.records, providers)
  {
    CycleByDecision(s, providers, listing, fetch);
  }

  /** Idempotence: once a cycle has run with a delivered download, a second
      cycle on the same listing changes nothing at all, and when the listing
      has a latest file it takes the skip path. */
  lemma SecondCycleIsNoOp(s: Store, providers: ProviderTable, listing: ListOutcome, payload: Payload, second: FetchOutcome)
    ensures var s1 := Cycle(s, providers, listing, Fetched(payload));
            && Cycle(s1, providers, listing, second) == s1
            && (listing.Listed? && Resolve(listing.files).Some? ==>
                  && s1.marker == Some(Resolve(listing.files).value.name)
                  && Decide(s1.marker, listing).AlreadySynced?)
  {
    CycleByDecision(s, providers, listing, Fetched(payload));
    var s1 := Cycle(s, providers, listing, Fetched(payload));
    CycleByDecision(s1, providers, listing, second);
  }
}
