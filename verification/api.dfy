/**
 * The read side and the tag store of api.go: merging and reading tags,
 * the page count, the newest-first paged build listing, the repository
 * summaries with their newest commit, and the lookups of the latest
 * non-empty build.
 */
module Api {
  import opened Outcomes
  import opened Strconv
  import opened Text
  import opened JsonTime
  import opened Registry
  import opened Reconcile

  function RepoNotFound(namespace: string, name: string): string {
    "Repository not found: " + namespace + "/" + name
  }

  // ---------------------------------------------------------------- tags

  function TagOf(b: Build, tagName: string): (r: Option<Tag>)
    ensures r.Some? <==> tagName in b.tags
    ensures r.Some? ==> r.value == b.tags[tagName]
  {
    if tagName in b.tags then Some(b.tags[tagName]) else None
  }

  /**
   * The tag `SetTag` stores: the request itself for a new tag; for an
   * existing one, the version and release date are replaced only by a
   * non-empty version and a non-zero date, and `ready` always.
   */
  function MergeTag(existing: Option<Tag>, req: Tag): (t: Tag)
    ensures existing.None? ==> t == req
    ensures existing.Some? ==> t.version == (if req.version != "" then req.version else existing.value.version)
    ensures existing.Some? ==> t.releaseDate == (if req.releaseDate != Zero then req.releaseDate else existing.value.releaseDate)
    ensures existing.Some? ==> t.ready == req.ready
  {
    match existing
    case None => req
    case Some(tag) =>
      var withVersion :=
        if req.version != "" && req.version != tag.version then tag.(version := req.version) else tag;
      var withDate :=
        if req.releaseDate != Zero && req.releaseDate != withVersion.releaseDate
        then withVersion.(releaseDate := req.releaseDate) else withVersion;
      withDate.(ready := req.ready)
  }

  /** Sending the same tag request twice stores what sending it once did. */
  lemma MergeTagIdempotent(existing: Option<Tag>, req: Tag)
    ensures MergeTag(Some(MergeTag(existing, req)), req) == MergeTag(existing, req)
  {
  }

  /**
   * The builds after `SetTag` stores a tag on `commit`: only that build's
   * tag `tagName` changes (a build without tags gets a map holding it).
   */
  function WithTag(builds: map<string, Build>, commit: string, tagName: string, req: Tag): (m: map<string, Build>)
    requires commit in builds
    ensures m.Keys == builds.Keys
    ensures forall c :: c in builds && c != commit ==> m[c] == builds[c]
    ensures m[commit].(tags := builds[commit].tags) == builds[commit]
    ensures m[commit].tags.Keys == builds[commit].tags.Keys + {tagName}
    ensures forall n :: n in builds[commit].tags && n != tagName ==> m[commit].tags[n] == builds[commit].tags[n]
    ensures m[commit].tags[tagName] == MergeTag(TagOf(builds[commit], tagName), req)
  {
    var build := builds[commit];
    builds[commit := build.(tags := build.tags[tagName := MergeTag(TagOf(build, tagName), req)])]
  }

  /** The commit `GetTag` reads: "latest" stands for the repository's latest build. */
  function ResolveCommit(repo: Repo, commit: string): string {
    if commit == "latest" then repo.latestBuild else commit
  }

  /** `GetTag`: the stored tag, or the zero tag when the build has none of that name. */
  function GetTag(storage: Storage, namespace: string, name: string, commit: string, tagName: string): (r: Reply<Tag>)
    ensures RepoId(namespace, name) !in storage ==> r == Failure(400, RepoNotFound(namespace, name))
    ensures RepoId(namespace, name) in storage ==>
              var repo := storage[RepoId(namespace, name)];
              var c := ResolveCommit(repo, commit);
              (c !in repo.builds ==> r == Failure(400, "Couldn't get build"))
              && (c in repo.builds && tagName !in repo.builds[c].tags ==> r == Success(ZeroTag))
              && (c in repo.builds && tagName in repo.builds[c].tags ==> r == Success(repo.builds[c].tags[tagName]))
  {
    var id := RepoId(namespace, name);
    if id !in storage then Failure(400, RepoNotFound(namespace, name))
    else
      var repo := storage[id];
      var c := ResolveCommit(repo, commit);
      if c !in repo.builds then Failure(400, "Couldn't get build")
      else match TagOf(repo.builds[c], tagName)
        case None => Success(ZeroTag)
        case Some(tag) => Success(tag)
  }

  /** A tag stored by `SetTag` on a commit is what `GetTag` then reads for that commit. */
  lemma TagReadBack(storage: Storage, namespace: string, name: string, commit: string, tagName: string, req: Tag)
    requires RepoId(namespace, name) in storage
    requires commit in storage[RepoId(namespace, name)].builds && commit != "latest"
    ensures var repo := storage[RepoId(namespace, name)];
            var stored := storage[RepoId(namespace, name) := repo.(builds := WithTag(repo.builds, commit, tagName, req))];
            GetTag(stored, namespace, name, commit, tagName)
              == Success(MergeTag(TagOf(repo.builds[commit], tagName), req))
  {
  }

  // ---------------------------------------------------------------- paging

  /** Where the page after `k` full pages of `perPage` builds starts: k * perPage. */
  function Offset(k: nat, perPage: nat): nat {
    if k == 0 then 0 else Offset(k - 1, perPage) + perPage
  }

  lemma {:induction false} OffsetIsProduct(k: nat, perPage: nat)
    ensures Offset(k, perPage) == k * perPage
  {
    if k > 0 {
      OffsetIsProduct(k - 1, perPage);
    }
  }

  /** Later pages start at least a page further on. */
  lemma {:induction false} OffsetMonotone(j: nat, k: nat, perPage: nat)
    requires j < k
    ensures Offset(j, perPage) + perPage <= Offset(k, perPage)
  {
    if j < k - 1 {
      OffsetMonotone(j, k - 1, perPage);
    }
  }

  /**
   * `roundPageCount`: how many pages of `perPage` builds hold `c` builds,
   * the fewest pages whose total room is at least `c`.
   */
  function RoundPageCount(c: nat, perPage: nat): (pages: nat)
    requires perPage > 0
    ensures c <= Offset(pages, perPage)
    ensures pages == 0 || Offset(pages - 1, perPage) < c
    ensures pages == 0 <==> c == 0
    decreases c
  {
    if c == 0 then 0
    else if c <= perPage then 1
    else
      1 + RoundPageCount(c - perPage, perPage)
  }

  /** One more page in front shifts the total room by a page. */
  lemma {:induction false} OffsetShift(k: nat, perPage: nat)
    ensures Offset(k + 1, perPage) == Offset(k, perPage) + perPage
  {
  }

  /** The page count is the ceiling of c / perPage, computed in integers. */
  lemma PageCountIsCeiling(c: nat, perPage: nat)
    requires perPage > 0
    ensures RoundPageCount(c, perPage) == (c + perPage - 1) / perPage
  {
    var pages := RoundPageCount(c, perPage);
    OffsetIsProduct(pages, perPage);
    if pages > 0 {
      OffsetIsProduct(pages - 1, perPage);
    }
    assert c <= pages * perPage;
    assert pages == 0 || (pages - 1) * perPage < c;
    CeilingUnique(c, perPage, pages);
  }

  lemma CeilingUnique(c: nat, perPage: nat, pages: nat)
    requires perPage > 0
    requires c <= pages * perPage && (pages == 0 || (pages - 1) * perPage < c)
    ensures pages == (c + perPage - 1) / perPage
  {
    var q := (c + perPage - 1) / perPage;
    assert q * perPage <= c + perPage - 1 < q * perPage + perPage;
    if pages < q {
      MulMonotone(pages, q - 1, perPage);
    } else if pages > q {
      MulMonotone(q, pages - 1, perPage);
    }
  }

  lemma MulMonotone(a: nat, b: nat, k: nat)
    requires a <= b
    ensures a * k <= b * k
  {
  }

  /** Where page `page` starts in the listing. */
  function PageStart(page: nat, perPage: nat): nat
    requires page >= 1
  {
    Offset(page - 1, perPage)
  }

  /** Before the last page a page ends `perPage` further; the last one at the end of the listing. */
  lemma PageBounds(n: nat, page: nat, perPage: nat)
    requires perPage > 0 && 1 <= page <= RoundPageCount(n, perPage)
    ensures PageStart(page, perPage) < n
    ensures page < RoundPageCount(n, perPage) ==> PageStart(page, perPage) + perPage <= n
    ensures n - PageStart(page, perPage) <= perPage || page < RoundPageCount(n, perPage)
  {
    var pages := RoundPageCount(n, perPage);
    if page < pages {
      OffsetMonotone(page - 1, pages - 1, perPage);
    }
  }

  /** The commits of page `page`: a full slice before the last page, the rest on it. */
  function PageSlice(all: seq<string>, page: nat, perPage: nat): (s: seq<string>)
    requires perPage > 0 && 1 <= page <= RoundPageCount(|all|, perPage)
    ensures page < RoundPageCount(|all|, perPage) ==> |s| == perPage
    ensures page == RoundPageCount(|all|, perPage) ==> 0 < |s| == |all| - PageStart(page, perPage) <= perPage
    ensures forall k :: 0 <= k < |s| ==> PageStart(page, perPage) + k < |all| && s[k] == all[PageStart(page, perPage) + k]
  {
    PageBounds(|all|, page, perPage);
    var start := PageStart(page, perPage);
    if page != RoundPageCount(|all|, perPage) then all[start .. start + perPage]
    else all[start ..]
  }

  /** The page that holds position `i` of a listing, and the offset of `i` on it. */
  lemma {:induction false} PageOf(n: nat, perPage: nat, i: nat) returns (page: nat)
    requires perPage > 0 && i < n
    ensures 1 <= page <= RoundPageCount(n, perPage)
    ensures PageStart(page, perPage) <= i < PageStart(page, perPage) + perPage
  {
    if i < perPage {
      page := 1;
    } else {
      var pages := RoundPageCount(n, perPage);
      var before := PageOf(n - perPage, perPage, i - perPage);
      OffsetShift(before - 1, perPage);
      page := before + 1;
    }
  }

  /** Every position of the listing is on some page. */
  lemma PageCovers(all: seq<string>, perPage: nat, i: nat)
    requires perPage > 0 && i < |all|
    ensures exists page :: 1 <= page <= RoundPageCount(|all|, perPage)
                           && i - PageStart(page, perPage) < |PageSlice(all, page, perPage)|
                           && PageStart(page, perPage) <= i
                           && PageSlice(all, page, perPage)[i - PageStart(page, perPage)] == all[i]
  {
    var page := PageOf(|all|, perPage, i);
    PageBounds(|all|, page, perPage);
    assert PageSlice(all, page, perPage)[i - PageStart(page, perPage)] == all[i];
  }

  /** Two different pages never share a position of the listing. */
  lemma PagePositionsDisjoint(perPage: nat, p: nat, q: nat, x: nat, y: nat)
    requires perPage > 0 && 1 <= p && 1 <= q && p != q && x < perPage && y < perPage
    ensures PageStart(p, perPage) + x != PageStart(q, perPage) + y
  {
    if p < q {
      OffsetMonotone(p - 1, q - 1, perPage);
    } else {
      OffsetMonotone(q - 1, p - 1, perPage);
    }
  }

  /** No commit appears on two different pages of a listing without repeats. */
  lemma PagesDisjoint(all: seq<string>, perPage: nat, p: nat, q: nat, x: nat, y: nat)
    requires perPage > 0
    requires 1 <= p <= RoundPageCount(|all|, perPage) && 1 <= q <= RoundPageCount(|all|, perPage) && p != q
    requires forall a, b :: 0 <= a < b < |all| ==> all[a] != all[b]
    requires x < |PageSlice(all, p, perPage)| && y < |PageSlice(all, q, perPage)|
    ensures PageSlice(all, p, perPage)[x] != PageSlice(all, q, perPage)[y]
  {
    PagePositionsDisjoint(perPage, p, q, x, y);
    var a, b := PageStart(p, perPage) + x, PageStart(q, perPage) + y;
    assert a < |all| && PageSlice(all, p, perPage)[x] == all[a];
    assert b < |all| && PageSlice(all, q, perPage)[y] == all[b];
    if a < b {
      assert all[a] != all[b];
    } else {
      assert all[b] != all[a];
    }
  }

  /** The date a listing sorts by: a commit missing from the listed builds counts as the zero time. */
  function Stamp(listed: map<string, BuildDto>, c: string): int {
    if c in listed then Unix(listed[c].date) else ZeroUnix
  }

  /** Newest first: no commit is listed before a strictly newer one. */
  predicate NewestFirst(s: seq<string>, listed: map<string, BuildDto>) {
    forall a, b :: 0 <= a < b < |s| ==> Stamp(listed, s[a]) >= Stamp(listed, s[b])
  }

  /** The DTO `getBuilds` sends for a commit missing from the listed builds. */
  const ZeroDto: BuildDto := BuildDto(0, "", "", Zero, "", [])

  /** The `Builds` map of a page: each commit of the page with its listed build. */
  function PageBuilds(order: seq<string>, listed: map<string, BuildDto>): (m: map<string, BuildDto>)
    ensures forall c :: c in m <==> c in order
    ensures forall c :: c in m && c in listed ==> m[c] == listed[c]
    ensures forall c :: c in m && c !in listed ==> m[c] == ZeroDto
  {
    map c | c in order :: if c in listed then listed[c] else ZeroDto
  }

  datatype BuildsPage = BuildsPage(order: seq<string>, builds: map<string, BuildDto>)

  /**
   * How `getBuilds` leaves its key slice: one slot per stored build, every
   * listed commit exactly once, no other commit, and when no commit is ""
   * the listed commits fill the front.
   */
  ghost predicate Arrangement(all: seq<string>, builds: map<string, Build>, dirs: Listing) {
    var listed := ListedBuilds(builds, dirs);
    |all| == |builds|
    && PlacesExactly(all, listed.Keys)
    && NoRepeats(all)
    && |listed| <= |all|
    && ("" !in builds ==> forall k :: |listed| <= k < |all| ==> all[k] == "")
  }

  /** The non-empty entries of `s` are exactly `commits`. */
  ghost predicate PlacesExactly(s: seq<string>, commits: set<string>) {
    forall c :: c != "" ==> (c in commits <==> c in s)
  }

  /** No non-empty entry of `s` occurs twice. */
  predicate NoRepeats(s: seq<string>) {
    forall a, b :: 0 <= a < b < |s| && s[a] != "" ==> s[a] != s[b]
  }

  /** Every stored commit is non-empty and its artifact directory can be listed. */
  predicate WellFormed(builds: map<string, Build>, dirs: Listing) {
    "" !in builds && forall c :: c in builds ==> Readable(builds[c], dirs)
  }

  /**
   * When the builds are well formed, the arranged and sorted key slice holds
   * every commit exactly once, newest first.
   */
  lemma WellFormedListing(all: seq<string>, builds: map<string, Build>, dirs: Listing)
    requires Arrangement(all, builds, dirs) && WellFormed(builds, dirs)
    requires NewestFirst(all[..|ListedBuilds(builds, dirs)|], ListedBuilds(builds, dirs))
    ensures forall c :: c in all <==> c in builds
    ensures forall a, b :: 0 <= a < b < |all| ==> all[a] != all[b]
    ensures NewestFirst(all, ListedBuilds(builds, dirs))
  {
    var listed := ListedBuilds(builds, dirs);
    assert listed.Keys == builds.Keys;
    assert |listed| == |listed.Keys| == |builds.Keys| == |builds|;
    assert all[..|listed|] == all;
    EveryCommitPlaced(all, listed.Keys);
  }

  /** When n non-empty commits all occur among n slots, no slot is "". */
  lemma EveryCommitPlaced(all: seq<string>, commits: set<string>)
    requires "" !in commits && |commits| == |all|
    requires forall c :: c in commits ==> c in all
    ensures forall k :: 0 <= k < |all| ==> all[k] != ""
  {
    forall k | 0 <= k < |all|
      ensures all[k] != ""
    {
      if all[k] == "" {
        var rest := all[..k] + all[k + 1..];
        forall c | c in commits ensures c in rest {
          var j :| 0 <= j < |all| && all[j] == c;
          if j < k { assert rest[j] == c; } else { assert rest[j - 1] == c; }
        }
        SetWithinSequence(commits, rest);
        assert false;
      }
    }
  }

  lemma {:induction false} SetWithinSequence(commits: set<string>, s: seq<string>)
    requires forall c :: c in commits ==> c in s
    ensures |commits| <= |s|
  {
    if s != [] {
      var head := s[0];
      forall c | c in commits - {head} ensures c in s[1..] {
        var j :| 0 <= j < |s| && s[j] == c;
        assert j != 0;
        assert s[1..][j - 1] == c;
      }
      SetWithinSequence(commits - {head}, s[1..]);
    } else {
      assert commits == {};
    }
  }

  /** Non-empty entries that never repeat occur at most once in the multiset. */
  lemma {:induction false} DistinctCounts(s: seq<string>, c: string)
    requires NoRepeats(s) && c != ""
    ensures multiset(s)[c] <= 1
  {
    if s != [] {
      var t := s[1..];
      assert s == [s[0]] + t;
      assert forall k :: 0 <= k < |t| ==> t[k] == s[k + 1];
      DistinctCounts(t, c);
      if c == s[0] {
        assert c !in t;
      }
    }
  }

  /** An entry found at two positions occurs twice in the multiset. */
  lemma RepeatCounts(s: seq<string>, a: nat, b: nat)
    requires a < b < |s| && s[a] == s[b]
    ensures multiset(s)[s[a]] >= 2
  {
    assert s == s[..b] + [s[b]] + s[b + 1..];
    assert s[..b][a] == s[a];
  }

  /** A reordering keeps the entries and their freedom from repeats. */
  lemma ReorderKeeps(before: seq<string>, after: seq<string>)
    requires multiset(after) == multiset(before) && NoRepeats(before)
    ensures NoRepeats(after)
    ensures forall c :: c in after <==> c in before
  {
    forall c ensures c in after <==> c in before {
      assert c in after <==> c in multiset(after);
      assert c in before <==> c in multiset(before);
    }
    forall a, b | 0 <= a < b < |after| && after[a] != ""
      ensures after[a] != after[b]
    {
      if after[a] == after[b] {
        RepeatCounts(after, a, b);
        DistinctCounts(before, after[a]);
      }
    }
  }

  /** Reordering the slots in front of the listed count keeps the arrangement. */
  lemma ArrangementKept(before: seq<string>, after: seq<string>, builds: map<string, Build>, dirs: Listing)
    requires Arrangement(before, builds, dirs)
    requires |ListedBuilds(builds, dirs)| <= |before| == |after|
    requires var n := |ListedBuilds(builds, dirs)|;
             multiset(after[..n]) == multiset(before[..n]) && after[n..] == before[n..]
    ensures Arrangement(after, builds, dirs)
  {
    var n := |ListedBuilds(builds, dirs)|;
    WholeEntries(before, after, n);
    ReorderKeeps(before, after);
  }

  /** Equal multisets of the fronts and equal tails give equal multisets. */
  lemma WholeEntries(before: seq<string>, after: seq<string>, n: nat)
    requires n <= |before| == |after|
    requires multiset(after[..n]) == multiset(before[..n]) && after[n..] == before[n..]
    ensures multiset(after) == multiset(before)
  {
    assert before == before[..n] + before[n..];
    assert after == after[..n] + after[n..];
  }

  /** `n` unused slots of the key slice. */
  function Blank(n: nat): (s: seq<string>)
    ensures |s| == n && forall k :: 0 <= k < n ==> s[k] == ""
  {
    seq(n, _ => "")
  }

  /** Unused slots add no commit. */
  lemma PaddedMembers(placed: seq<string>, n: nat)
    ensures forall c :: c != "" ==> (c in placed + Blank(n) <==> c in placed)
  {
    var s := placed + Blank(n);
    forall c | c != "" ensures c in s <==> c in placed {
      if c in s {
        var k :| 0 <= k < |s| && s[k] == c;
        assert k < |placed| && placed[k] == c;
      }
    }
  }

  /** Unused slots add no repeat. */
  lemma PaddedNoRepeats(placed: seq<string>, n: nat)
    requires NoRepeats(placed)
    ensures NoRepeats(placed + Blank(n))
  {
  }

  /** Appending a key not yet placed, or "", keeps the placed keys free of repeats. */
  lemma AppendSlot(placed: seq<string>, c: string)
    requires NoRepeats(placed) && (c == "" || c !in placed)
    ensures NoRepeats(placed + [c])
  {
    var s := placed + [c];
    forall a, b | 0 <= a < b < |s| && s[a] != "" ensures s[a] != s[b] {
      if b == |placed| {
        assert s[a] == placed[a];
      }
    }
  }

  /** A slice whose entries from `i` on are "" is its first `i` entries padded with unused slots. */
  lemma FilledPrefix(s: seq<string>, i: nat)
    requires i <= |s| && forall j :: i <= j < |s| ==> s[j] == ""
    ensures s == s[..i] + Blank(|s| - i)
  {
  }

  /**
   * The used slots of the key slice after the fill loop has visited the
   * first `k` commits of `order`: every commit whose directory can be
   * listed, "" included.
   */
  function Slots(builds: map<string, Build>, dirs: Listing, order: seq<string>, k: nat): (s: seq<string>)
    requires k <= |order|
    ensures |s| <= k
  {
    if k == 0 then []
    else
      var c := order[k - 1];
      Slots(builds, dirs, order, k - 1) + (if c in builds && Described(builds[c], dirs).Some? then [c] else [])
  }

  /** The DTO map of the fill loop after it has visited the first `k` commits of `order`. */
  function ListedOf(builds: map<string, Build>, dirs: Listing, order: seq<string>, k: nat): map<string, BuildDto>
    requires k <= |order|
  {
    if k == 0 then map[]
    else
      var c := order[k - 1];
      var m := ListedOf(builds, dirs, order, k - 1);
      if c != "" && c in builds && Described(builds[c], dirs).Some? then m[c := Described(builds[c], dirs).value] else m
  }

  /** The fill loop lists exactly the listable non-empty commits it has visited. */
  lemma {:induction false} ListedOfKeys(builds: map<string, Build>, dirs: Listing, order: seq<string>, k: nat)
    requires k <= |order| && forall c :: c in order ==> c in builds
    ensures forall c :: c in ListedOf(builds, dirs, order, k) <==> c in order[..k] && c != "" && Readable(builds[c], dirs)
    ensures forall c :: c in ListedOf(builds, dirs, order, k) ==> ListedOf(builds, dirs, order, k)[c] == BuildView(builds[c], dirs)
  {
    if k > 0 {
      assert order[..k] == order[..k - 1] + [order[k - 1]];
      ListedOfKeys(builds, dirs, order, k - 1);
    }
  }

  /** The used slots hold exactly the listable commits visited, "" included. */
  lemma {:induction false} SlotsMembers(builds: map<string, Build>, dirs: Listing, order: seq<string>, k: nat)
    requires k <= |order| && forall c :: c in order ==> c in builds
    ensures forall c :: c in Slots(builds, dirs, order, k) <==> c in order[..k] && Readable(builds[c], dirs)
  {
    if k > 0 {
      assert order[..k] == order[..k - 1] + [order[k - 1]];
      SlotsMembers(builds, dirs, order, k - 1);
    }
  }

  /** Over distinct commits, the used slots repeat no commit. */
  lemma {:induction false} SlotsNoRepeats(builds: map<string, Build>, dirs: Listing, order: seq<string>, k: nat)
    requires k <= |order| && forall c :: c in order ==> c in builds
    requires forall a, b :: 0 <= a < b < |order| ==> order[a] != order[b]
    ensures NoRepeats(Slots(builds, dirs, order, k))
  {
    if k > 0 {
      var c := order[k - 1];
      SlotsNoRepeats(builds, dirs, order, k - 1);
      var prev := Slots(builds, dirs, order, k - 1);
      if Readable(builds[c], dirs) {
        assert c !in prev by {
          SlotsMembers(builds, dirs, order, k - 1);
          assert c !in order[..k - 1];
        }
        AppendSlot(prev, c);
      }
    }
  }

  /** Over distinct commits, the used slots count the listed commits, plus one for a listable "" commit. */
  lemma {:induction false} SlotsCount(builds: map<string, Build>, dirs: Listing, order: seq<string>, k: nat)
    requires k <= |order| && forall c :: c in order ==> c in builds
    requires forall a, b :: 0 <= a < b < |order| ==> order[a] != order[b]
    ensures |Slots(builds, dirs, order, k)|
            == |ListedOf(builds, dirs, order, k)| + (if "" in order[..k] && Readable(builds[""], dirs) then 1 else 0)
  {
    if k > 0 {
      var c := order[k - 1];
      assert order[..k] == order[..k - 1] + [c];
      assert c !in order[..k - 1];
      SlotsCount(builds, dirs, order, k - 1);
      assert c !in ListedOf(builds, dirs, order, k - 1) by {
        ListedOfKeys(builds, dirs, order, k - 1);
      }
    }
  }

  /** Once every commit has been visited, the listed DTOs are `ListedBuilds`. */
  lemma ListedOfAll(builds: map<string, Build>, dirs: Listing, order: seq<string>)
    requires forall c :: c in order <==> c in builds
    ensures ListedOf(builds, dirs, order, |order|) == ListedBuilds(builds, dirs)
  {
    ListedOfKeys(builds, dirs, order, |order|);
    assert order[..|order|] == order;
  }

  /** The slice the fill loop leaves after visiting every commit once is an arrangement. */
  lemma FilledArrangement(builds: map<string, Build>, dirs: Listing, order: seq<string>)
    requires |order| == |builds|
    requires forall c :: c in order <==> c in builds
    requires forall a, b :: 0 <= a < b < |order| ==> order[a] != order[b]
    ensures Arrangement(Slots(builds, dirs, order, |order|) + Blank(|builds| - |Slots(builds, dirs, order, |order|)|), builds, dirs)
  {
    var used := Slots(builds, dirs, order, |order|);
    var all := used + Blank(|builds| - |used|);
    var listed := ListedBuilds(builds, dirs);
    assert order[..|order|] == order;
    assert |used| == |listed| + (if "" in builds && Readable(builds[""], dirs) then 1 else 0) by {
      SlotsCount(builds, dirs, order, |order|);
      ListedOfAll(builds, dirs, order);
    }
    assert PlacesExactly(all, listed.Keys) by {
      SlotsMembers(builds, dirs, order, |order|);
      PaddedMembers(used, |builds| - |used|);
    }
    assert NoRepeats(all) by {
      SlotsNoRepeats(builds, dirs, order, |order|);
      PaddedNoRepeats(used, |builds| - |used|);
    }
  }

  /**
   * The fill loop of `getBuilds`: visits the commits in `order`, and for each
   * one whose directory can be listed stores its key in the next slot and,
   * unless the key is "", its DTO in the map.
   */
  method FillKeys(builds: map<string, Build>, dirs: Listing, order: seq<string>)
    returns (keys: array<string>, listed: map<string, BuildDto>)
    requires |order| == |builds| && forall j :: 0 <= j < |order| ==> order[j] in builds
    ensures fresh(keys)
    ensures keys[..] == Slots(builds, dirs, order, |order|) + Blank(|builds| - |Slots(builds, dirs, order, |order|)|)
    ensures listed == ListedOf(builds, dirs, order, |order|)
  {
    keys := new string[|builds|](_ => "");
    listed := map[];
    var i := 0;
    for k := 0 to |order|
      invariant i <= k
      invariant keys[..i] == Slots(builds, dirs, order, k)
      invariant forall j :: i <= j < keys.Length ==> keys[j] == ""
      invariant listed == ListedOf(builds, dirs, order, k)
    {
      var commit := order[k];
      var described := Describe(builds[commit], dirs);
      if described.None? {
        continue;
      }
      ghost var used := keys[..i];
      if commit != "" {
        keys[i] := commit;
        listed := listed[commit := described.value];
      }
      assert keys[..i + 1] == used + [commit];
      i := i + 1;
    }
    FilledPrefix(keys[..], i);
  }

  /**
   * The key slice and DTO map `getBuilds` sorts: the fill loop run over the
   * map in its (arbitrary) iteration order.
   */
  method ArrangeKeys(builds: map<string, Build>, dirs: Listing) returns (keys: array<string>, listed: map<string, BuildDto>)
    ensures fresh(keys)
    ensures listed == ListedBuilds(builds, dirs)
    ensures Arrangement(keys[..], builds, dirs)
  {
    var order := IterationOrder(builds);
    keys, listed := FillKeys(builds, dirs, order);
    ListedOfAll(builds, dirs, order);
    FilledArrangement(builds, dirs, order);
  }

  /** Exchanging two entries keeps the multiset of a sequence. */
  lemma SwapKeepsEntries(s: seq<string>, i: nat, j: nat)
    requires i < |s| && j < |s|
    ensures multiset(s[i := s[j]][j := s[i]]) == multiset(s)
  {
  }

  /** Equal multisets and equal tails give equal multisets of the fronts. */
  lemma FrontEntries(a: seq<string>, b: seq<string>, n: nat)
    requires n <= |a| == |b| && multiset(a) == multiset(b) && a[n..] == b[n..]
    ensures multiset(a[..n]) == multiset(b[..n])
  {
    assert multiset(a) == multiset(a[..n]) + multiset(a[n..]) by {
      assert a == a[..n] + a[n..];
    }
    assert multiset(b) == multiset(b[..n]) + multiset(b[n..]) by {
      assert b == b[..n] + b[n..];
    }
    assert multiset(a[n..]) == multiset(b[n..]);
    assert multiset(a[..n]) == multiset(a) - multiset(a[n..]);
    assert multiset(b[..n]) == multiset(b) - multiset(b[n..]);
  }

  /** No entry of `s` ranks strictly above an entry before it. */
  predicate Descending(s: seq<string>, rank: string -> int) {
    forall a, b :: 0 <= a < b < |s| ==> rank(s[a]) >= rank(s[b])
  }

  /** `SortableBuilds.Swap`: exchanges two keys. */
  method Swap(keys: array<string>, x: nat, y: nat)
    requires x < keys.Length && y < keys.Length
    modifies keys
    ensures keys[x] == old(keys[y]) && keys[y] == old(keys[x])
    ensures forall k :: 0 <= k < keys.Length && k != x && k != y ==> keys[k] == old(keys[k])
    ensures multiset(keys[..]) == multiset(old(keys[..]))
  {
    ghost var before := keys[..];
    keys[x], keys[y] := keys[y], keys[x];
    assert keys[..] == before[x := before[y]][y := before[x]];
    SwapKeepsEntries(before, x, y);
  }

  /** One pass of the insertion sort: moves `keys[i]` left past every entry ranked strictly lower. */
  method InsertByRank(keys: array<string>, i: nat, rank: string -> int)
    requires i < keys.Length
    requires Descending(keys[..i], rank)
    modifies keys
    ensures Descending(keys[..i + 1], rank)
    ensures multiset(keys[..]) == multiset(old(keys[..]))
    ensures forall k :: i < k < keys.Length ==> keys[k] == old(keys[k])
  {
    var j := i;
    while j > 0 && rank(keys[j]) > rank(keys[j - 1])
      invariant 0 <= j <= i
      invariant forall a, b :: 0 <= a < b <= i && a != j && b != j ==> rank(keys[a]) >= rank(keys[b])
      invariant forall a, b :: 0 <= a < j < b <= i ==> rank(keys[a]) >= rank(keys[b])
      invariant forall b :: j < b <= i ==> rank(keys[j]) >= rank(keys[b])
      invariant multiset(keys[..]) == multiset(old(keys[..]))
      invariant forall k :: i < k < keys.Length ==> keys[k] == old(keys[k])
    {
      Swap(keys, j - 1, j);
      j := j - 1;
    }
  }

  /** `sort.Sort` on the first `n` keys (the insertion sort it applies to short slices). */
  method SortNewestFirst(keys: array<string>, n: nat, listed: map<string, BuildDto>)
    requires n <= keys.Length
    modifies keys
    ensures NewestFirst(keys[..n], listed)
    ensures multiset(keys[..n]) == multiset(old(keys[..n]))
    ensures keys[n..] == old(keys[n..])
  {
    if n == 0 {
      return;
    }
    var rank := c => Stamp(listed, c);
    ghost var initial := keys[..];
    var i := 1;
    while i < n
      invariant 1 <= i <= n
      invariant Descending(keys[..i], rank)
      invariant multiset(keys[..]) == multiset(initial)
      invariant forall k :: n <= k < keys.Length ==> keys[k] == initial[k]
    {
      InsertByRank(keys, i, rank);
      i := i + 1;
    }
    assert keys[n..] == initial[n..];
    FrontEntries(keys[..], initial, n);
  }

  /**
   * `getBuilds`: page `pageParam` of the repository's builds, newest first,
   * `perPage` to a page. Page 0 passes the range check and then slices from
   * a negative index, which panics.
   */
  method GetBuilds(storage: Storage, namespace: string, name: string, pageParam: string, dirs: Listing, perPage: nat)
    returns (r: Reply<BuildsPage>, ghost all: seq<string>)
    requires perPage > 0
    ensures ParseInt(pageParam).None? ==> r == Failure(400, namespace + "/" + name + ": Invalid page")
    ensures ParseInt(pageParam).Some? && RepoId(namespace, name) !in storage ==>
              r == Failure(400, RepoNotFound(namespace, name))
    ensures ParseInt(pageParam).Some? && RepoId(namespace, name) in storage ==>
              var builds := storage[RepoId(namespace, name)].builds;
              var page := ParseInt(pageParam).value;
              (page < 0 || page > RoundPageCount(|builds|, perPage) ==>
                 r == Failure(400, namespace + "/" + name + ": Invalid page index"))
              && (page == 0 ==> r == Panic)
              && (1 <= page <= RoundPageCount(|builds|, perPage) ==>
                    Arrangement(all, builds, dirs)
                    && NewestFirst(all[..|ListedBuilds(builds, dirs)|], ListedBuilds(builds, dirs))
                    && r == Success(BuildsPage(PageSlice(all, page, perPage),
                                               PageBuilds(PageSlice(all, page, perPage), ListedBuilds(builds, dirs)))))
  {
    all := [];
    var parsed := ParseInt(pageParam);
    if parsed.None? {
      return Failure(400, namespace + "/" + name + ": Invalid page"), all;
    }
    var page := parsed.value;
    var id := RepoId(namespace, name);
    if id !in storage {
      return Failure(400, RepoNotFound(namespace, name)), all;
    }
    var builds := storage[id].builds;
    var pages := RoundPageCount(|builds|, perPage);
    if page < 0 || page > pages {
      return Failure(400, namespace + "/" + name + ": Invalid page index"), all;
    }
    if page == 0 {
      return Panic, all;
    }
    var keys, listed := ArrangeKeys(builds, dirs);
    ghost var filled := keys[..];
    SortNewestFirst(keys, |listed|, listed);
    all := keys[..];
    ArrangementKept(filled, all, builds, dirs);
    var order := PageSlice(keys[..], page, perPage);
    var shown := PageMap(order, listed);
    r := Success(BuildsPage(order, shown));
  }

  /** The loop that collects the DTO of each commit on the page; a commit without one gets the zero DTO. */
  method PageMap(order: seq<string>, listed: map<string, BuildDto>) returns (shown: map<string, BuildDto>)
    ensures shown == PageBuilds(order, listed)
  {
    shown := map[];
    for k := 0 to |order|
      invariant forall c :: c in shown <==> c in order[..k]
      invariant forall c :: c in shown ==> shown[c] == (if c in listed then listed[c] else ZeroDto)
    {
      shown := shown[order[k] := if order[k] in listed then listed[order[k]] else ZeroDto];
    }
    assert order[..|order|] == order;
  }

  // ------------------------------------------------------- repo summaries

  /**
   * `c` is a newest commit of `builds`: a commit dated after the zero time
   * that no build is strictly newer than, or "" when no build is dated
   * after the zero time.
   */
  ghost predicate IsNewest(builds: map<string, Build>, c: string) {
    (c == "" && forall d :: d in builds ==> !After(builds[d].date, Zero))
    || (c in builds && After(builds[c].date, Zero)
        && forall d :: d in builds ==> !After(builds[d].date, builds[c].date))
  }

  /**
   * The inner loop of `getRepos`: walks the builds in the map's iteration
   * order `order` and keeps the first commit dated strictly after the
   * newest one seen so far, starting from the zero time.
   */
  method NewestCommit(builds: map<string, Build>) returns (newest: string, ghost order: seq<string>)
    ensures IsNewest(builds, newest)
    ensures forall c :: c in order <==> c in builds
    ensures forall j, m :: 0 <= j < m < |order| && order[m] == newest && After(builds[newest].date, Zero) ==>
              After(builds[newest].date, builds[order[j]].date)
  {
    var commits := IterationOrder(builds);
    order := commits;
    newest := "";
    var newestTime := Zero;
    ghost var at := -1;
    for k := 0 to |commits|
      invariant -1 <= at < k
      invariant at == -1 ==> newest == "" && newestTime == Zero
      invariant at != -1 ==> newest == order[at] && newestTime == builds[newest].date && After(newestTime, Zero)
      invariant forall j :: 0 <= j < k ==> !After(builds[order[j]].date, newestTime)
      invariant at != -1 ==> forall j :: 0 <= j < at ==> After(newestTime, builds[order[j]].date)
    {
      var build := builds[commits[k]];
      if After(build.date, newestTime) {
        newest, newestTime := commits[k], build.date;
        at := k;
      }
    }
    forall d | d in builds
      ensures !After(builds[d].date, newestTime)
    {
      var j :| 0 <= j < |order| && order[j] == d;
    }
  }

  /** A repository's entry in the `getRepos` answer. */
  datatype RepoSummary = RepoSummary(namespace: string, name: string, secret: bool, latestCommit: string, latestPush: BuildDto)

  /** The summary `getRepos` gives of a repository whose newest commit is `newest`. */
  function Summary(repo: Repo, newest: string): (s: RepoSummary)
    ensures s.namespace == repo.namespace && s.name == repo.name
    ensures s.secret <==> repo.secret != ""
    ensures s.latestCommit == newest
    ensures newest !in repo.builds ==> s.latestPush == BuildDto(0, "", "", Zero, "", [])
    ensures newest in repo.builds ==>
              s.latestPush == BuildDto(repo.builds[newest].id, "", repo.builds[newest].link, repo.builds[newest].date, "", [])
  {
    var b := if newest in repo.builds then repo.builds[newest] else ZeroBuild;
    RepoSummary(repo.namespace, repo.name, repo.secret != "", newest, BuildDto(b.id, "", b.link, b.date, "", []))
  }

  /**
   * Whichever newest commit the iteration order makes `getRepos` pick, the
   * latest push it reports is dated at the same instant.
   */
  lemma NewestPushUnique(repo: Repo, c: string, d: string)
    requires IsNewest(repo.builds, c) && IsNewest(repo.builds, d)
    ensures Unix(Summary(repo, c).latestPush.date) == Unix(Summary(repo, d).latestPush.date)
  {
    if c != d {
      assert c in repo.builds && d in repo.builds;
    }
  }

  /** Every entry of `resp` summarises the stored repository of that id, naming a newest commit of it. */
  ghost predicate Summarises(storage: Storage, resp: map<string, RepoSummary>) {
    forall id :: id in resp ==>
      id in storage && IsNewest(storage[id].builds, resp[id].latestCommit)
      && resp[id] == Summary(storage[id], resp[id].latestCommit)
  }

  /** `getRepos`: one summary per stored repository, each naming a newest commit of it. */
  method GetRepos(storage: Storage) returns (resp: map<string, RepoSummary>)
    ensures resp.Keys == storage.Keys
    ensures Summarises(storage, resp)
  {
    var ids := IterationOrder(storage);
    resp := map[];
    for k := 0 to |ids|
      invariant forall j :: 0 <= j < k ==> ids[j] in resp
      invariant Summarises(storage, resp)
    {
      var repo := storage[ids[k]];
      var newest, _ := NewestCommit(repo.builds);
      resp := resp[ids[k] := Summary(repo, newest)];
    }
    forall id | id in storage
      ensures id in resp
    {
      var j :| 0 <= j < |ids| && ids[j] == id;
    }
  }

  // ------------------------------------------------- latest non-empty build

  /** `LatestCommit`: the repository's latest build with artifacts, without its file list. */
  function LatestCommit(storage: Storage, namespace: string, name: string): (r: Reply<BuildDto>)
    ensures RepoId(namespace, name) !in storage ==> r == Failure(400, RepoNotFound(namespace, name))
    ensures RepoId(namespace, name) in storage ==>
              var repo := storage[RepoId(namespace, name)];
              (repo.latestNonEmptyBuild !in repo.builds ==> r == Failure(500, "Couldn't find latest build"))
              && (repo.latestNonEmptyBuild in repo.builds ==>
                    var b := repo.builds[repo.latestNonEmptyBuild];
                    r.Success? && r.value.id == b.id && r.value.name == b.name && r.value.link == b.link
                    && r.value.date == b.date && r.value.branch == b.branch && r.value.files == [])
  {
    var id := RepoId(namespace, name);
    if id !in storage then Failure(400, RepoNotFound(namespace, name))
    else
      var repo := storage[id];
      if repo.latestNonEmptyBuild !in repo.builds then Failure(500, "Couldn't find latest build")
      else
        var b := repo.builds[repo.latestNonEmptyBuild];
        Success(BuildDto(b.id, b.name, b.link, b.date, b.branch, []))
  }

  /** The file name matches the (already lower-cased) search text, ignoring case. */
  predicate Matches(f: FileInfo, search: string) {
    Contains(ToLower(f.name), search)
  }

  /** The index of the first entry that matches `search`, in listing order. */
  function FirstMatch(files: seq<FileInfo>, search: string): (r: Option<nat>)
    ensures r.Some? ==> r.value < |files| && Matches(files[r.value], search)
    ensures r.Some? ==> forall j :: 0 <= j < r.value ==> !Matches(files[j], search)
    ensures r.None? <==> forall j :: 0 <= j < |files| ==> !Matches(files[j], search)
  {
    if files == [] then None
    else if Matches(files[0], search) then Some(0)
    else match FirstMatch(files[1..], search)
      case None => None
      case Some(j) => Some(j + 1)
  }

  /**
   * `findLatest`: the first file of the latest non-empty build's directory
   * whose lower-cased name contains the lower-cased search text. A build
   * without a directory (`Files` is "") reads the storage root itself,
   * which `dirs` lists under "".
   */
  method FindLatest(storage: Storage, namespace: string, name: string, search: string, dirs: Listing)
    returns (r: Reply<FileInfo>)
    ensures ToLower(search) == "" ==> r == Failure(400, "No file name/query provided")
    ensures ToLower(search) != "" && RepoId(namespace, name) !in storage ==> r == Failure(400, RepoNotFound(namespace, name))
    ensures ToLower(search) != "" && RepoId(namespace, name) in storage ==>
              var repo := storage[RepoId(namespace, name)];
              (repo.latestNonEmptyBuild !in repo.builds ==> r == Failure(500, "Couldn't find latest build"))
              && (repo.latestNonEmptyBuild in repo.builds ==>
                    var files := repo.builds[repo.latestNonEmptyBuild].files;
                    (files !in dirs ==> r == Failure(500, "Couldn't read directory"))
                    && (files in dirs ==>
                          match FirstMatch(dirs[files], ToLower(search))
                          case None => r == Failure(500, "No matching file found")
                          case Some(j) => r == Success(dirs[files][j])))
  {
    var lowered := ToLower(search);
    if lowered == "" {
      return Failure(400, "No file name/query provided");
    }
    var id := RepoId(namespace, name);
    if id !in storage {
      return Failure(400, RepoNotFound(namespace, name));
    }
    var repo := storage[id];
    if repo.latestNonEmptyBuild !in repo.builds {
      return Failure(500, "Couldn't find latest build");
    }
    var build := repo.builds[repo.latestNonEmptyBuild];
    if build.files !in dirs {
      return Failure(500, "Couldn't read directory");
    }
    var files := dirs[build.files];
    for k := 0 to |files|
      invariant forall j :: 0 <= j < k ==> !Matches(files[j], lowered)
    {
      if Contains(ToLower(files[k].name), lowered) {
        return Success(files[k]);
      }
    }
    return Failure(500, "No matching file found");
  }
}
