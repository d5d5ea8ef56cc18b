/**
 The remote listing resolver: from the entries of one FTP directory listing,
 keep the full-directory CSV files, order them newest first with a stable
 sort, and take the first. Dates are modelled as integer timestamps (the
 comparator `b.date - a.date` only ever compares them).
 */
module Resolver {
  import opened Wrappers
  import opened JsSemantics

  /** One entry of the remote listing. */
  datatype FileEntry = FileEntry(name: string, date: int)

  /** The name infix and extension that mark a full directory listing. */
  const DirectoryToken: string := "BSBDirectory"
  const CsvExtension: string := ".csv"

  /** The filter predicate: the name contains the token and ends in `.csv`. */
  predicate IsCandidate(name: string) {
    IndexOf(name, DirectoryToken) > -1 && EndsWith(name, CsvExtension)
  }

  /** The filter keeps exactly the names that contain the token and end in
      the extension. */
  lemma CandidateMeaning(name: string)
    ensures IsCandidate(name) <==> Contains(name, DirectoryToken) && EndsWith(name, CsvExtension)
  {
    IndexOfFindsSubstring(name, DirectoryToken);
  }

  /** `files.filter(...)`: the candidates, in listing order. */
  function Candidates(files: seq<FileEntry>): (r: seq<FileEntry>)
    ensures forall f :: f in r <==> f in files && IsCandidate(f.name)
    ensures |r| <= |files|
  {
    if files == [] then []
    else (if IsCandidate(files[0].name) then [files[0]] else []) + Candidates(files[1..])
  }

  /** Candidates of a concatenation are the concatenation of the candidates:
      the filter keeps the listing's relative order. */
  lemma {:induction false} CandidatesAppend(a: seq<FileEntry>, b: seq<FileEntry>)
    ensures Candidates(a + b) == Candidates(a) + Candidates(b)
  {
    if a == [] {
      assert a + b == b;
    } else {
      assert (a + b)[1..] == a[1..] + b;
      CandidatesAppend(a[1..], b);
    }
  }

  /** Newest first: dates never increase along the sequence. */
  predicate NewestFirst(s: seq<FileEntry>) {
    forall i, j :: 0 <= i < j < |s| ==> s[i].date >= s[j].date
  }

  /** Every entry of `s` is at most as new as `b`. */
  predicate NoNewerThan(s: seq<FileEntry>, b: int) {
    forall i :: 0 <= i < |s| ==> s[i].date <= b
  }

  /** Places `x` in front of the first entry that is not strictly newer. */
  function Insert(x: FileEntry, t: seq<FileEntry>): (r: seq<FileEntry>)
    ensures multiset(r) == multiset(t) + multiset{x}
  {
    if t == [] then [x]
    else if t[0].date <= x.date then [x] + t
    else
      assert t == [t[0]] + t[1..];
      [t[0]] + Insert(x, t[1..])
  }

  lemma {:induction false} InsertKeepsBound(x: FileEntry, t: seq<FileEntry>, b: int)
    requires NoNewerThan(t, b) && x.date <= b
    ensures NoNewerThan(Insert(x, t), b)
  {
    if t != [] && t[0].date > x.date {
      InsertKeepsBound(x, t[1..], b);
    }
  }

  lemma {:induction false} InsertKeepsNewestFirst(x: FileEntry, t: seq<FileEntry>)
    requires NewestFirst(t)
    ensures NewestFirst(Insert(x, t))
  {
    if t != [] && t[0].date > x.date {
      InsertKeepsNewestFirst(x, t[1..]);
      InsertKeepsBound(x, t[1..], t[0].date);
    }
  }

  /** `files.sort((a, b) => b.date - a.date)`, a stable sort (insertion
      sort, as the language guarantees stability). */
  function SortNewestFirst(s: seq<FileEntry>): (r: seq<FileEntry>)
    ensures multiset(r) == multiset(s)
    ensures NewestFirst(r)
  {
    if s == [] then []
    else
      assert s == [s[0]] + s[1..];
      InsertKeepsNewestFirst(s[0], SortNewestFirst(s[1..]));
      Insert(s[0], SortNewestFirst(s[1..]))
  }

  /** The head of the sorted sequence is one of the input entries and is at
      least as new as each of them. */
  lemma SortHeadIsNewest(c: seq<FileEntry>)
    requires c != []
    ensures SortNewestFirst(c) != []
    ensures SortNewestFirst(c)[0] in c
    ensures forall f :: f in c ==> f.date <= SortNewestFirst(c)[0].date
  {
    var sorted := SortNewestFirst(c);
    assert |sorted| == |multiset(sorted)| == |multiset(c)| == |c|;
    assert sorted[0] in multiset(sorted);
    forall f | f in c ensures f.date <= sorted[0].date {
      assert f in multiset(sorted);
      var i :| 0 <= i < |sorted| && sorted[i] == f;
    }
  }

  /** The entries of `s` with date `d`, in order. */
  function WithDate(s: seq<FileEntry>, d: int): seq<FileEntry> {
    if s == [] then []
    else (if s[0].date == d then [s[0]] else []) + WithDate(s[1..], d)
  }

  /** Filtering by date unfolds one entry at a time. */
  lemma WithDateCons(x: FileEntry, t: seq<FileEntry>, d: int)
    ensures WithDate([x] + t, d) == (if x.date == d then [x] else []) + WithDate(t, d)
  {
    assert ([x] + t)[1..] == t;
  }

  lemma {:induction false} InsertWithDate(x: FileEntry, t: seq<FileEntry>, d: int)
    ensures WithDate(Insert(x, t), d) == (if x.date == d then [x] else []) + WithDate(t, d)
  {
    if t == [] {
      WithDateCons(x, [], d);
    } else if t[0].date <= x.date {
      WithDateCons(x, t, d);
    } else {
      var rest := Insert(x, t[1..]);
      WithDateCons(t[0], rest, d);
      InsertWithDate(x, t[1..], d);
      WithDateCons(t[0], t[1..], d);
      assert [t[0]] + t[1..] == t;
    }
  }

  /** Stability: for every date, the entries carrying it come out of the
      sort in the order they went in. */
  lemma {:induction false} SortIsStable(s: seq<FileEntry>, d: int)
    ensures WithDate(SortNewestFirst(s), d) == WithDate(s, d)
  {
    if s != [] {
      SortIsStable(s[1..], d);
      InsertWithDate(s[0], SortNewestFirst(s[1..]), d);
    }
  }

  /** Position `k` of `c` holds a newest entry and every entry before it is
      strictly older. */
  predicate FirstNewestAt(c: seq<FileEntry>, k: int) {
    && 0 <= k < |c|
    && (forall j :: 0 <= j < |c| ==> c[j].date <= c[k].date)
    && (forall j :: 0 <= j < k ==> c[j].date < c[k].date)
  }

  /** The position of the first entry with the greatest date. */
  function FirstNewest(c: seq<FileEntry>): (k: nat)
    requires c != []
    ensures FirstNewestAt(c, k)
  {
    if |c| == 1 then 0
    else
      var k := FirstNewest(c[1..]);
      if c[k + 1].date <= c[0].date then 0 else k + 1
  }

  /** The head of the stable sort is the first newest entry. */
  lemma {:induction false} SortHeadIsFirstNewest(c: seq<FileEntry>)
    requires c != []
    ensures SortNewestFirst(c)[0] == c[FirstNewest(c)]
  {
    if |c| > 1 {
      SortHeadIsFirstNewest(c[1..]);
    }
  }

  /** Position `k` of the whole listing holds a candidate, no candidate is
      newer, and every earlier candidate is strictly older. */
  predicate FirstNewestCandidateAt(files: seq<FileEntry>, k: int) {
    && 0 <= k < |files|
    && IsCandidate(files[k].name)
    && (forall j :: 0 <= j < |files| && IsCandidate(files[j].name) ==> files[j].date <= files[k].date)
    && (forall j :: 0 <= j < k && IsCandidate(files[j].name) ==> files[j].date < files[k].date)
  }

  /** A non-candidate at the head of the listing shifts the chosen position
      by one. */
  lemma SkipHeadKeepsFirstNewest(files: seq<FileEntry>, k: int)
    requires files != [] && !IsCandidate(files[0].name)
    requires FirstNewestCandidateAt(files[1..], k)
    ensures FirstNewestCandidateAt(files, k + 1)
  {
    assert forall j :: 0 < j < |files| ==> files[j] == files[1..][j - 1];
  }

  /** A candidate at the head strictly older than the newest of the rest
      shifts the chosen position by one. */
  lemma OlderHeadKeepsFirstNewest(files: seq<FileEntry>, k: int)
    requires files != [] && FirstNewestCandidateAt(files[1..], k)
    requires files[0].date < files[1..][k].date
    ensures FirstNewestCandidateAt(files, k + 1)
  {
    assert forall j :: 0 < j < |files| ==> files[j] == files[1..][j - 1];
  }

  /** A candidate at the head at least as new as every candidate of the rest
      is the choice. */
  lemma NewestHeadIsFirstNewest(files: seq<FileEntry>)
    requires files != [] && IsCandidate(files[0].name)
    requires forall f :: f in Candidates(files[1..]) ==> f.date <= files[0].date
    ensures FirstNewestCandidateAt(files, 0)
  {
    forall j | 0 < j < |files| && IsCandidate(files[j].name)
      ensures files[j].date <= files[0].date
    {
      assert files[j] in files[1..];
    }
  }

  /** The filter unfolds one entry at a time. */
  lemma CandidatesCons(files: seq<FileEntry>)
    requires files != []
    ensures IsCandidate(files[0].name) ==> Candidates(files) == [files[0]] + Candidates(files[1..])
    ensures !IsCandidate(files[0].name) ==> Candidates(files) == Candidates(files[1..])
  {
  }

  /** A bound on the first newest entry bounds every entry. */
  lemma NewestBoundsAll(c: seq<FileEntry>, b: int)
    requires c != [] && c[FirstNewest(c)].date <= b
    ensures forall g :: g in c ==> g.date <= b
  {
    forall g | g in c ensures g.date <= b {
      var i :| 0 <= i < |c| && c[i] == g;
    }
  }

  /** A candidate head at least as new as the first newest candidate of the
      rest is the choice. */
  lemma HeadWinsTie(files: seq<FileEntry>)
    requires files != [] && IsCandidate(files[0].name)
    ensures var c' := Candidates(files[1..]);
            c' != [] && c'[FirstNewest(c')].date <= files[0].date ==>
              FirstNewest(Candidates(files)) == 0 && FirstNewestCandidateAt(files, 0)
  {
    var c, c' := Candidates(files), Candidates(files[1..]);
    if c' != [] && c'[FirstNewest(c')].date <= files[0].date {
      CandidatesCons(files);
      assert c[1..] == c';
      NewestBoundsAll(c', files[0].date);
      NewestHeadIsFirstNewest(files);
    }
  }

  lemma {:induction false} FirstNewestInListing(files: seq<FileEntry>)
    requires Candidates(files) != []
    ensures exists k :: FirstNewestCandidateAt(files, k)
                     && files[k] == Candidates(files)[FirstNewest(Candidates(files))]
  {
    var f, rest := files[0], files[1..];
    var c, c' := Candidates(files), Candidates(rest);
    CandidatesCons(files);
    if !IsCandidate(f.name) {
      FirstNewestInListing(rest);
      var k' :| FirstNewestCandidateAt(rest, k') && rest[k'] == c'[FirstNewest(c')];
      SkipHeadKeepsFirstNewest(files, k');
    } else if c' == [] {
      NewestHeadIsFirstNewest(files);
    } else if c'[FirstNewest(c')].date <= f.date {
      HeadWinsTie(files);
    } else {
      var m := FirstNewest(c');
      assert FirstNewest(c) == m + 1;
      FirstNewestInListing(rest);
      var k' :| FirstNewestCandidateAt(rest, k') && rest[k'] == c'[m];
      OlderHeadKeepsFirstNewest(files, k');
    }
  }

  /** The latest full-directory file of a listing, or None when the listing
      has no candidate (where the source reads `files[0].name` of an empty
      array and throws). */
  function Resolve(files: seq<FileEntry>): (r: Option<FileEntry>)
    ensures r.None? <==> forall f :: f in files ==> !IsCandidate(f.name)
    ensures r.Some? ==> r.value in files && IsCandidate(r.value.name)
    ensures r.Some? ==> forall f :: f in files && IsCandidate(f.name) ==> f.date <= r.value.date
  {
    var c := Candidates(files);
    if c == [] then None
    else
      SortHeadIsNewest(c);
      Some(SortNewestFirst(c)[0])
  }

  /** The tie rule: among equally new candidates the one listed first wins. */
  lemma ResolvePicksFirstNewest(files: seq<FileEntry>)
    requires Resolve(files).Some?
    ensures exists k :: FirstNewestCandidateAt(files, k) && files[k] == Resolve(files).value
  {
    var c := Candidates(files);
    SortHeadIsFirstNewest(c);
    FirstNewestInListing(files);
  }

  /** The choice is unique: at most one position satisfies the tie rule. */
  lemma FirstNewestCandidateUnique(files: seq<FileEntry>, k1: int, k2: int)
    requires FirstNewestCandidateAt(files, k1) && FirstNewestCandidateAt(files, k2)
    ensures k1 == k2
  {
  }

  /** Whichever position satisfies the tie rule is the one resolved. */
  lemma ResolveFollowsTieRule(files: seq<FileEntry>, k: int)
    requires FirstNewestCandidateAt(files, k)
    ensures Resolve(files) == Some(files[k])
  {
    assert files[k] in files;
    ResolvePicksFirstNewest(files);
    var k' :| FirstNewestCandidateAt(files, k') && files[k'] == Resolve(files).value;
    FirstNewestCandidateUnique(files, k, k');
  }

  /** Of two directory files the newer is chosen; other files are ignored. */
  lemma NewerDirectoryFileChosen()
    ensures var older := FileEntry("BSBDirectory_2023.csv", 2023);
            var newer := FileEntry("BSBDirectory_2024.csv", 2024);
            Resolve([older, FileEntry("readme.txt", 2025), newer]) == Some(newer)
  {
    var older := FileEntry("BSBDirectory_2023.csv", 2023);
    var other := FileEntry("readme.txt", 2025);
    var newer := FileEntry("BSBDirectory_2024.csv", 2024);
    assert OccursAt(older.name, DirectoryToken, 0);
    assert OccursAt(newer.name, DirectoryToken, 0);
    assert !EndsWith(other.name, CsvExtension);
    assert Candidates([older, other, newer]) == [older, newer] by {
      assert [older, other, newer][1..] == [other, newer];
      assert [other, newer][1..] == [newer];
    }
  }

  /** `files[0].name` as the source evaluates it: on an empty array
      `files[0]` is `undefined` and reading `.name` throws a TypeError. */
  datatype NameRead = Name(name: string) | ThrowsTypeError

  function LatestNameAsWritten(files: seq<FileEntry>): (r: NameRead)
    ensures r.ThrowsTypeError? <==> forall f :: f in files ==> !IsCandidate(f.name)
    ensures r.Name? ==> Resolve(files).Some? && r.name == Resolve(files).value.name
  {
    var sorted := SortNewestFirst(Candidates(files));
    if sorted == [] then ThrowsTypeError else Name(sorted[0].name)
  }

  /** A listing without a directory file makes the source throw where the
      corrected resolver answers None. */
  lemma ListingWithoutDirectoryFileThrows()
    ensures LatestNameAsWritten([FileEntry("readme.txt", 1)]) == ThrowsTypeError
    ensures Resolve([FileEntry("readme.txt", 1)]) == None
  {
    assert !EndsWith("readme.txt", CsvExtension);
  }
}
