/**
 * Reconciliation with the CI engine and the build views of main.go:
 * rebuilding a repository's builds from the CI engine's list, adding the
 * active repositories it reports, reloading every repository, the
 * human-readable file size and the single-repository view.
 */
module Reconcile {
  import opened Outcomes
  import opened Strconv
  import opened JsonTime
  import opened Registry

  // ---------------------------------------------------------------- fileSize

  /** A file size for display: plain bytes, or a multiple of `div` named by `unit`. */
  datatype SizeLabel = Bytes(n: int) | Scaled(div: int, unit: char)

  const Units: string := "KMGTPE"

  function Pow1000(e: nat): (p: nat)
    ensures p >= 1
  {
    if e == 0 then 1 else 1000 * Pow1000(e - 1)
  }

  /** How many more times the loop of `fileSize` divides `n` by 1000 before it drops below 1000. */
  function ScaleExponent(n: nat): nat {
    if n < 1000 then 0 else 1 + ScaleExponent(n / 1000)
  }

  lemma {:induction false} ScaleExponentBounds(n: nat)
    requires n >= 1
    ensures Pow1000(ScaleExponent(n)) <= n < Pow1000(ScaleExponent(n) + 1)
  {
    if n >= 1000 {
      ScaleExponentBounds(n / 1000);
      var e := ScaleExponent(n / 1000);
      assert Pow1000(e) <= n / 1000 < Pow1000(e + 1);
      assert 1000 * Pow1000(e) <= 1000 * (n / 1000) <= n;
      assert n < 1000 * (n / 1000 + 1) <= 1000 * Pow1000(e + 1);
    }
  }

  /** Every int64 byte count, divided by 1000, is below 1000^6. */
  lemma Int64ThousandthsBound(l: Int64)
    requires l >= 0
    ensures l / 1000 < Pow1000(6)
  {
    assert Pow1000(1) == 1000;
    assert Pow1000(2) == 1000000;
    assert Pow1000(3) == 1000000000;
    assert Pow1000(4) == 1000000000000;
    assert Pow1000(5) == 1000000000000000;
    assert Pow1000(6) == 1000000000000000000;
    assert IsInt64(l);
    assert l <= Int64Max;
    assert l / 1000 <= 9223372036854775;
  }

  lemma {:induction false} ScaleExponentAtMost(n: nat, k: nat)
    requires n < Pow1000(k + 1)
    ensures ScaleExponent(n) <= k
  {
    if n >= 1000 {
      assert k > 0;
      assert n / 1000 < Pow1000(k);
      ScaleExponentAtMost(n / 1000, k - 1);
    }
  }

  /**
   * The unit `fileSize` picks for `l` bytes: below 1000 the plain count;
   * otherwise the largest power of 1000 not above `l`, and its letter.
   */
  function SizeLabelOf(l: Int64): (r: SizeLabel)
    ensures l < 1000 ==> r == Bytes(l)
    ensures l >= 1000 ==> r.Scaled? && r.div <= l < 1000 * r.div
    ensures l >= 1000 ==> ScaleExponent(l / 1000) < |Units|
                          && r.div == Pow1000(ScaleExponent(l / 1000) + 1)
                          && r.unit == Units[ScaleExponent(l / 1000)]
  {
    if l < 1000 then Bytes(l)
    else
      var n := l / 1000;
      Int64ThousandthsBound(l);
      ScaleExponentAtMost(n, 5);
      ScaleExponentBounds(n);
      var e := ScaleExponent(n);
      assert 1000 * Pow1000(e) <= 1000 * n <= l;
      assert l < 1000 * (n + 1) <= 1000 * Pow1000(e + 1);
      Scaled(Pow1000(e + 1), Units[e])
  }

  /** `fileSize`, with its division loop; the float formatting is not modelled. */
  method FileSize(l: Int64) returns (r: SizeLabel)
    ensures r == SizeLabelOf(l)
  {
    if l < 1000 {
      return Bytes(l);
    }
    var div, exp := 1000, 0;
    var n := l / 1000;
    Int64ThousandthsBound(l);
    ScaleExponentAtMost(n, 5);
    while n >= 1000
      invariant n >= 1
      invariant div == Pow1000(exp + 1)
      invariant exp + ScaleExponent(n) == ScaleExponent(l / 1000) <= 5
      decreases n
    {
      div := div * 1000;
      exp := exp + 1;
      n := n / 1000;
    }
    r := Scaled(div, Units[exp]);
  }

  // ---------------------------------------------------------------- views

  /** The keys of a map in the order a `range` loop visits them, which Go leaves unspecified. */
  method IterationOrder<V>(m: map<string, V>) returns (order: seq<string>)
    ensures |order| == |m|
    ensures forall c :: c in order <==> c in m
    ensures forall a, b :: 0 <= a < b < |order| ==> order[a] != order[b]
  {
    order := [];
    var remaining := m.Keys;
    while remaining != {}
      invariant remaining <= m.Keys
      invariant |order| + |remaining| == |m.Keys|
      invariant forall c :: c in order <==> c in m && c !in remaining
      invariant forall a, b :: 0 <= a < b < |order| ==> order[a] != order[b]
      decreases remaining
    {
      var c :| c in remaining;
      remaining := remaining - {c};
      order := order + [c];
    }
    assert |m.Keys| == |m|;
  }

  datatype FileDto = FileDto(name: string, size: SizeLabel)

  datatype BuildDto = BuildDto(id: Int64, name: string, link: string, date: Time, branch: string, files: seq<FileDto>)

  function FileDtos(entries: seq<FileInfo>): (r: seq<FileDto>)
    ensures |r| == |entries|
    ensures forall i :: 0 <= i < |entries| ==> r[i] == FileDto(entries[i].name, SizeLabelOf(entries[i].size))
  {
    seq(|entries|, i requires 0 <= i < |entries| => FileDto(entries[i].name, SizeLabelOf(entries[i].size)))
  }

  /** The loop that describes every entry of an artifact directory. */
  method ListFiles(entries: seq<FileInfo>) returns (r: seq<FileDto>)
    ensures r == FileDtos(entries)
  {
    r := [];
    for i := 0 to |entries|
      invariant r == FileDtos(entries[..i])
    {
      var size := FileSize(entries[i].size);
      r := r + [FileDto(entries[i].name, size)];
    }
    assert entries[..|entries|] == entries;
  }

  /** The artifact directory of `b` is absent or can be listed. */
  predicate Readable(b: Build, dirs: Listing) {
    b.files == "" || b.files in dirs
  }

  /** What a listing shows of one build (api.go's BuildDTO; main.go's has no branch). */
  function BuildView(b: Build, dirs: Listing): (d: BuildDto)
    requires Readable(b, dirs)
    ensures d.id == b.id && d.name == b.name && d.link == b.link && d.date == b.date && d.branch == b.branch
    ensures b.files == "" ==> d.files == []
    ensures b.files != "" ==> |d.files| == |dirs[b.files]|
  {
    BuildDto(b.id, b.name, b.link, b.date, b.branch, if b.files == "" then [] else FileDtos(dirs[b.files]))
  }

  /** What `Describe` yields for one build. */
  function Described(b: Build, dirs: Listing): (d: Option<BuildDto>)
    ensures d.None? <==> !Readable(b, dirs)
    ensures d.Some? ==> d.value == BuildView(b, dirs)
  {
    if Readable(b, dirs) then Some(BuildView(b, dirs)) else None
  }

  /**
   * How both listings describe one build: the build with its directory's
   * files, or nothing when that directory cannot be listed.
   */
  method Describe(b: Build, dirs: Listing) returns (d: Option<BuildDto>)
    ensures d == Described(b, dirs)
  {
    var files: seq<FileDto> := [];
    if b.files != "" {
      if b.files !in dirs {
        return None;
      }
      files := ListFiles(dirs[b.files]);
    }
    return Some(BuildDto(b.id, b.name, b.link, b.date, b.branch, files));
  }

  /** The repository view of main.go's `getRepo`. */
  datatype RepoView = RepoView(namespace: string, name: string, builds: map<string, BuildDto>)

  /**
   * The builds a listing describes: every commit but "", except those whose
   * artifact directory cannot be listed.
   */
  function ListedBuilds(builds: map<string, Build>, dirs: Listing): (m: map<string, BuildDto>)
    ensures forall c :: c in m <==> c in builds && c != "" && Readable(builds[c], dirs)
  {
    map c | c in builds && c != "" && Readable(builds[c], dirs) :: BuildView(builds[c], dirs)
  }

  /** What main.go's `getRepo` shows: the listed builds, without their branch. */
  function VisibleBuilds(builds: map<string, Build>, dirs: Listing): (m: map<string, BuildDto>)
    ensures forall c :: c in m <==> c in builds && c != "" && Readable(builds[c], dirs)
    ensures forall c :: c in m ==> m[c].branch == "" && m[c].(branch := builds[c].branch) == BuildView(builds[c], dirs)
  {
    var listed := ListedBuilds(builds, dirs);
    map c | c in listed :: listed[c].(branch := "")
  }

  /** main.go's `getRepo`: one pass over the builds in the map's (arbitrary) order. */
  method GetRepo(storage: Storage, namespace: string, name: string, dirs: Listing) returns (r: Reply<RepoView>)
    ensures RepoId(namespace, name) !in storage ==> r == Failure(400, "Repository not found: " + namespace + "/" + name)
    ensures RepoId(namespace, name) in storage ==>
              r == Success(RepoView(namespace, name, VisibleBuilds(storage[RepoId(namespace, name)].builds, dirs)))
  {
    var id := RepoId(namespace, name);
    if id !in storage {
      return Failure(400, "Repository not found: " + namespace + "/" + name);
    }
    var builds := storage[id].builds;
    var shown: map<string, BuildDto> := map[];
    var remaining := builds.Keys;
    while remaining != {}
      invariant remaining <= builds.Keys
      invariant forall c :: c in shown <==> c in builds && c !in remaining && c != "" && Readable(builds[c], dirs)
      invariant forall c :: c in shown ==> shown[c] == ListedBuilds(builds, dirs)[c].(branch := "")
      decreases remaining
    {
      var commit :| commit in remaining;
      remaining := remaining - {commit};
      var described := Describe(builds[commit], dirs);
      if described.None? {
        continue;
      }
      if commit != "" {
        shown := shown[commit := described.value.(branch := "")];
      }
    }
    assert shown.Keys == VisibleBuilds(builds, dirs).Keys;
    assert forall c :: c in shown ==> shown[c] == VisibleBuilds(builds, dirs)[c];
    assert shown == VisibleBuilds(builds, dirs);
    return Success(RepoView(namespace, name, shown));
  }

  // ---------------------------------------------------------------- loadBuilds

  /** The `Files` a commit carries over from the previous builds: its old directory, or none. */
  function CarriedFiles(previous: map<string, Build>, commit: string): string {
    if commit in previous then previous[commit].files else ""
  }

  /** The build `loadBuilds` makes of one CI record. */
  function Record(previous: map<string, Build>, d: CiBuild): (b: Build)
    ensures b.id == d.id && b.name == d.title && b.link == d.link && b.date == At(d.updated)
    ensures d.after in previous ==> b.files == previous[d.after].files
    ensures d.after !in previous ==> b.files == ""
    ensures b.tags == map[] && b.branch == "" && b.dateChanged == Zero
  {
    Build(d.id, d.title, At(d.updated), CarriedFiles(previous, d.after), d.link, map[], "", Zero)
  }

  /** The map `loadBuilds` fills from the CI list, one record after the other. */
  function Reconciled(previous: map<string, Build>, list: seq<CiBuild>): map<string, Build> {
    if list == [] then map[]
    else Reconciled(previous, list[..|list| - 1])[list[|list| - 1].after := Record(previous, list[|list| - 1])]
  }

  /**
   * `loadBuilds`: when the CI engine lists the builds, a fresh map from
   * their commits to builds; when it fails, its error.
   */
  method LoadBuilds(previous: map<string, Build>, list: Result<seq<CiBuild>>) returns (r: Result<map<string, Build>>)
    ensures list.Err? ==> r == Err(list.message)
    ensures list.Ok? ==> r == Ok(Reconciled(previous, list.value))
  {
    if list.Err? {
      return Err(list.message);
    }
    var records := list.value;
    var builds: map<string, Build> := map[];
    for i := 0 to |records|
      invariant builds == Reconciled(previous, records[..i])
    {
      assert records[..i + 1][..i] == records[..i];
      builds := builds[records[i].after := Record(previous, records[i])];
    }
    assert records[..|records|] == records;
    return Ok(builds);
  }

  /** The result holds exactly the commits the CI engine listed. */
  lemma {:induction false} ReconciledKeys(previous: map<string, Build>, list: seq<CiBuild>)
    ensures Reconciled(previous, list).Keys == set d | d in list :: d.after
  {
    if list != [] {
      var init := list[..|list| - 1];
      ReconciledKeys(previous, init);
      assert list == init + [list[|list| - 1]];
      assert (set d | d in list :: d.after) == (set d | d in init :: d.after) + {list[|list| - 1].after};
    }
  }

  /** A commit listed more than once ends up with its last record. */
  lemma {:induction false} ReconciledLastWins(previous: map<string, Build>, list: seq<CiBuild>, i: nat)
    requires i < |list|
    requires forall j :: i < j < |list| ==> list[j].after != list[i].after
    ensures list[i].after in Reconciled(previous, list)
    ensures Reconciled(previous, list)[list[i].after] == Record(previous, list[i])
  {
    if i < |list| - 1 {
      var init := list[..|list| - 1];
      assert forall j :: i < j < |init| ==> init[j] == list[j];
      ReconciledLastWins(previous, init, i);
    }
  }

  /** Every reconciled build has the `Files` its commit carried over. */
  lemma {:induction false} ReconciledFiles(previous: map<string, Build>, list: seq<CiBuild>, c: string)
    requires c in Reconciled(previous, list)
    ensures Reconciled(previous, list)[c].files == CarriedFiles(previous, c)
  {
    if list != [] && list[|list| - 1].after != c {
      ReconciledFiles(previous, list[..|list| - 1], c);
    }
  }

  lemma {:induction false} ReconciledDependsOnRecords(p1: map<string, Build>, p2: map<string, Build>, list: seq<CiBuild>)
    requires forall d :: d in list ==> Record(p1, d) == Record(p2, d)
    ensures Reconciled(p1, list) == Reconciled(p2, list)
  {
    if list != [] {
      var init := list[..|list| - 1];
      assert forall d :: d in init ==> d in list;
      ReconciledDependsOnRecords(p1, p2, init);
    }
  }

  /**
   * Reconciling twice against the same CI list gives the same builds as
   * reconciling once.
   */
  lemma ReconcileIdempotent(previous: map<string, Build>, list: seq<CiBuild>)
    ensures Reconciled(Reconciled(previous, list), list) == Reconciled(previous, list)
  {
    var once := Reconciled(previous, list);
    ReconciledKeys(previous, list);
    forall d | d in list
      ensures Record(once, d) == Record(previous, d)
    {
      assert d.after in once;
      ReconciledFiles(previous, list, d.after);
    }
    ReconciledDependsOnRecords(once, previous, list);
  }

  // ---------------------------------------------------------------- loadRepos

  /** The repository `loadRepos` creates on first sight: no secret, no builds. */
  function NewRepo(d: CiRepo): (r: Repo)
    ensures r.namespace == d.namespace && r.name == d.name && r.link == d.link
    ensures r.secret == "" && r.builds == map[]
  {
    Repo(d.namespace, d.name, d.link, map[], "", [], "", "")
  }

  /** The storage after `loadRepos` has gone through `list` in order. */
  function WithActiveRepos(storage: Storage, list: seq<CiRepo>): Storage {
    if list == [] then storage
    else
      var s := WithActiveRepos(storage, list[..|list| - 1]);
      var d := list[|list| - 1];
      if !d.active || RepoId(d.namespace, d.name) in s then s
      else s[RepoId(d.namespace, d.name) := NewRepo(d)]
  }

  /** The storage keys of the active repositories in a CI list. */
  function ActiveIds(list: seq<CiRepo>): set<string> {
    set d | d in list && d.active :: RepoId(d.namespace, d.name)
  }

  /** `loadRepos` adds exactly the active repositories that were missing. */
  lemma {:induction false} ActiveReposKeys(storage: Storage, list: seq<CiRepo>)
    ensures WithActiveRepos(storage, list).Keys == storage.Keys + ActiveIds(list)
  {
    if list != [] {
      var init := list[..|list| - 1];
      var d := list[|list| - 1];
      ActiveReposKeys(storage, init);
      assert list == init + [d];
      assert ActiveIds(list) == ActiveIds(init) + (if d.active then {RepoId(d.namespace, d.name)} else {});
    }
  }

  /** `loadRepos` leaves every stored repository, its secret included, as it was. */
  lemma {:induction false} ActiveReposKeepStored(storage: Storage, list: seq<CiRepo>, id: string)
    requires id in storage
    ensures id in WithActiveRepos(storage, list) && WithActiveRepos(storage, list)[id] == storage[id]
  {
    if list != [] {
      ActiveReposKeepStored(storage, list[..|list| - 1], id);
    }
  }

  /** Each repository `loadRepos` adds is fresh: made from an active CI record, no secret, no builds. */
  lemma {:induction false} ActiveReposFresh(storage: Storage, list: seq<CiRepo>, id: string)
    requires id in WithActiveRepos(storage, list) && id !in storage
    ensures exists d :: d in list && d.active && RepoId(d.namespace, d.name) == id
                        && WithActiveRepos(storage, list)[id] == NewRepo(d)
  {
    var init := list[..|list| - 1];
    var d := list[|list| - 1];
    if id in WithActiveRepos(storage, init) {
      ActiveReposFresh(storage, init, id);
      var d' :| d' in init && d'.active && RepoId(d'.namespace, d'.name) == id
                && WithActiveRepos(storage, init)[id] == NewRepo(d');
      assert d' in list;
    } else {
      assert d in list;
    }
  }

  // ---------------------------------------------------------------- loadAllBuilds

  /** Where the CI engine's build list for "namespace/name" comes from. */
  type BuildSource = (string, string) -> Result<seq<CiBuild>>

  /**
   * The storage after `loadAllBuilds`: every repository whose build list
   * could be fetched gets its builds rebuilt; the others keep theirs.
   */
  function ReloadAll(storage: Storage, ci: BuildSource): (s: Storage)
    ensures s.Keys == storage.Keys
    ensures forall n :: n in s && ci(storage[n].namespace, storage[n].name).Err? ==> s[n] == storage[n]
  {
    map n | n in storage :: Reloaded(storage[n], ci)
  }

  /** One repository after `loadAllBuilds`. */
  function Reloaded(repo: Repo, ci: BuildSource): (r: Repo)
    ensures ci(repo.namespace, repo.name).Err? ==> r == repo
    ensures ci(repo.namespace, repo.name).Ok? ==>
              r == repo.(builds := Reconciled(repo.builds, ci(repo.namespace, repo.name).value))
  {
    match ci(repo.namespace, repo.name)
    case Err(_) => repo
    case Ok(list) => repo.(builds := Reconciled(repo.builds, list))
  }
}
