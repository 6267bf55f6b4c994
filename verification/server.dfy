/**
 * The handlers that change the registry in place: the application object
 * holding the storage map, `SetTag`, `NewKey`, `loadRepos` and
 * `loadAllBuilds`. Persisting the storage (`app.store()`) is outside the
 * model; where its error matters it is an input.
 */
module Server {
  import opened Outcomes
  import opened JsonTime
  import opened Registry
  import opened Reconcile
  import opened Auth
  import opened Api

  /**
   * What api.go's five-result `loadBuilds` hands `SetTag`: the rebuilt
   * builds, the branches, the latest build and the latest build with
   * artifacts.
   */
  datatype Reload = Reload(builds: map<string, Build>, branches: seq<string>, latestBuild: string, latestNonEmptyBuild: string)

  /** A repository with the result of a reload in place of its builds and their summary. */
  function Refreshed(repo: Repo, reload: Reload): (r: Repo)
    ensures r.namespace == repo.namespace && r.name == repo.name && r.link == repo.link && r.secret == repo.secret
    ensures r.builds == reload.builds && r.branches == reload.branches
    ensures r.latestBuild == reload.latestBuild && r.latestNonEmptyBuild == reload.latestNonEmptyBuild
  {
    repo.(builds := reload.builds, branches := reload.branches,
          latestBuild := reload.latestBuild, latestNonEmptyBuild := reload.latestNonEmptyBuild)
  }

  /**
   * The repository `NewKey` stores: a new secret `generated` when one is asked
   * for or none was ever generated, otherwise the repository unchanged.
   */
  function Rekeyed(repo: Repo, newSecret: bool, generated: string): (r: Repo)
    ensures newSecret || repo.secret == "" ==> r == repo.(secret := generated)
    ensures !newSecret && repo.secret != "" ==> r == repo
  {
    if newSecret || repo.secret == "" then repo.(secret := generated) else repo
  }

  /**
   * The secret `NewKey` leaves is new exactly when it was asked for or the
   * stored one was empty; a repository that already has a secret keeps it
   * unless a new one is requested.
   */
  lemma RekeyedSecret(repo: Repo, newSecret: bool, generated: string)
    requires generated != ""
    ensures Rekeyed(repo, newSecret, generated).secret != repo.secret ==> newSecret || repo.secret == ""
    ensures repo.secret == "" ==> Rekeyed(repo, newSecret, generated).secret == generated
    ensures Rekeyed(repo, newSecret, generated).secret != ""
  {
  }

  /**
   * Regenerating a secret revokes every token signed with the old one: once
   * `NewKey` has stored a secret different from a token's key, the build
   * token checks refuse that token.
   */
  lemma RekeyRevokes(storage: Storage, namespace: string, name: string, generated: string, header: string,
                     t: Jwt, now: int, tokenPeriod: int, decode: string -> Option<Jwt>)
    requires RepoId(namespace, name) in storage
    requires Carries(header, decode, t) && t.key != generated
    ensures var id := RepoId(namespace, name);
            var after := storage[id := Rekeyed(storage[id], true, generated)];
            ValidateBuildToken(after, namespace, name, header, now, decode) == Failure(401, "Unauthorized")
            && GetBuildToken(after, namespace, name, header, now, tokenPeriod, decode) == Failure(401, "Unauthorized")
  {
    var id := RepoId(namespace, name);
    var after := storage[id := Rekeyed(storage[id], true, generated)];
    assert after[id].secret == generated;
    RotationRevokes(after, namespace, name, header, t, now, tokenPeriod, decode);
  }

  /** The storage while `loadAllBuilds` is under way: the repositories in `done` are reloaded. */
  ghost function PartlyReloaded(storage: Storage, ci: BuildSource, done: set<string>): (s: Storage)
    ensures s.Keys == storage.Keys
  {
    map n | n in storage :: if n in done then Reloaded(storage[n], ci) else storage[n]
  }

  /** Reloading one more repository updates exactly its entry. */
  lemma ReloadStep(storage: Storage, ci: BuildSource, done: set<string>, n: string)
    requires n in storage && n !in done
    ensures PartlyReloaded(storage, ci, done + {n})
            == PartlyReloaded(storage, ci, done)[n := Reloaded(storage[n], ci)]
  {
  }

  /** With every repository reloaded, the storage is the one `loadAllBuilds` promises. */
  lemma ReloadDone(storage: Storage, ci: BuildSource, done: set<string>)
    requires storage.Keys <= done
    ensures PartlyReloaded(storage, ci, done) == ReloadAll(storage, ci)
  {
  }

  /** The application state: the storage map every handler reads and writes. */
  class App {
    var storage: Storage

    constructor(storage: Storage)
      ensures this.storage == storage
    {
      this.storage := storage;
    }

    /**
     * `loadRepos`: adds every active repository of the CI list that is not
     * stored yet; when the list cannot be fetched, returns the error and
     * changes nothing.
     */
    method LoadRepos(list: Result<seq<CiRepo>>) returns (err: Option<string>)
      modifies this
      ensures list.Err? ==> err == Some(list.message) && storage == old(storage)
      ensures list.Ok? ==> err.None? && storage == WithActiveRepos(old(storage), list.value)
    {
      if list.Err? {
        return Some(list.message);
      }
      var repos := list.value;
      for i := 0 to |repos|
        invariant storage == WithActiveRepos(old(storage), repos[..i])
      {
        assert repos[..i + 1][..i] == repos[..i];
        var d := repos[i];
        if !d.active {
          continue;
        }
        var id := RepoId(d.namespace, d.name);
        if id !in storage {
          storage := storage[id := NewRepo(d)];
        }
      }
      assert repos[..|repos|] == repos;
      return None;
    }

    /**
     * `loadAllBuilds`: rebuilds the builds of every stored repository from
     * its CI list, keeping the old builds of a repository whose list
     * cannot be fetched.
     */
    method LoadAllBuilds(ci: BuildSource)
      modifies this
      ensures storage == ReloadAll(old(storage), ci)
    {
      var ids := IterationOrder(storage);
      ghost var done: set<string> := {};
      for k := 0 to |ids|
        invariant storage == PartlyReloaded(old(storage), ci, done)
        invariant forall j :: 0 <= j < k ==> ids[j] in done
        invariant forall j :: k <= j < |ids| ==> ids[j] !in done
      {
        var n := ids[k];
        var repo := storage[n];
        var builds := LoadBuilds(repo.builds, ci(repo.namespace, repo.name));
        if builds.Ok? {
          storage := storage[n := repo.(builds := builds.value)];
        }
        ReloadStep(old(storage), ci, done, n);
        done := done + {n};
      }
      forall n | n in old(storage)
        ensures n in done
      {
        var j :| 0 <= j < |ids| && ids[j] == n;
      }
      ReloadDone(old(storage), ci, done);
    }

    /**
     * `SetTag`: reloads the repository's builds, then merges the request
     * into the commit's tag and stores the repository. A missing
     * repository, a failed reload and an unknown commit change nothing.
     */
    method SetTag(namespace: string, name: string, commit: string, tagName: string, req: Tag, reload: Result<Reload>)
      returns (r: Reply<string>)
      modifies this
      ensures RepoId(namespace, name) !in old(storage) ==>
                r == Failure(400, Api.RepoNotFound(namespace, name)) && storage == old(storage)
      ensures RepoId(namespace, name) in old(storage) && reload.Err? ==>
                r == Failure(500, "Couldn't load builds") && storage == old(storage)
      ensures RepoId(namespace, name) in old(storage) && reload.Ok? && commit !in reload.value.builds ==>
                r == Failure(400, "Commit not found: " + commit) && storage == old(storage)
      ensures RepoId(namespace, name) in old(storage) && reload.Ok? && commit in reload.value.builds ==>
                var id := RepoId(namespace, name);
                var repo := Refreshed(old(storage)[id], reload.value);
                r == Success("Tag stored")
                && storage == old(storage)[id := repo.(builds := WithTag(repo.builds, commit, tagName, req))]
    {
      var id := RepoId(namespace, name);
      if id !in storage {
        return Failure(400, Api.RepoNotFound(namespace, name));
      }
      var repo := storage[id];
      if reload.Err? {
        return Failure(500, "Couldn't load builds");
      }
      repo := Refreshed(repo, reload.value);
      if commit !in repo.builds {
        return Failure(400, "Commit not found: " + commit);
      }
      var build := repo.builds[commit];
      var tag: Tag;
      if tagName !in build.tags {
        tag := req;
      } else {
        tag := build.tags[tagName];
        if req.version != "" && req.version != tag.version {
          tag := tag.(version := req.version);
        }
        if req.releaseDate != Zero && req.releaseDate != tag.releaseDate {
          tag := tag.(releaseDate := req.releaseDate);
        }
        tag := tag.(ready := req.ready);
      }
      build := build.(tags := build.tags[tagName := tag]);
      repo := repo.(builds := repo.builds[commit := build]);
      storage := storage[id := repo];
      return Success("Tag stored");
    }

    /**
     * `NewKey`: after reloading the repositories, regenerates the secret
     * when asked to or when there is none (`generated` is the new random
     * secret), stores the repository and answers with the refresh token
     * of a new pair signed with the secret now stored. `request` is the
     * bound `NewSecret` flag or the binding error, `list` the CI list
     * `loadRepos` fetches, `persisted` the error of writing the storage.
     */
    method NewKey(namespace: string, name: string, request: Result<bool>, list: Result<seq<CiRepo>>,
                  generated: string, persisted: Option<string>, now: int, tokenPeriod: int)
      returns (r: Reply<Jwt>)
      modifies this
      ensures request.Err? ==>
                r == Failure(400, "Failed to bind request JSON: " + request.message) && storage == old(storage)
      ensures request.Ok? && list.Err? ==>
                r == Failure(500, "Couldn't load repos: " + list.message) && storage == old(storage)
      ensures request.Ok? && list.Ok? ==>
                var loaded := WithActiveRepos(old(storage), list.value);
                var id := RepoId(namespace, name);
                (id !in loaded ==>
                   r == Failure(400, "Repo not found: " + namespace + "/" + name) && storage == loaded)
                && (id in loaded ==>
                      var repo := Rekeyed(loaded[id], request.value, generated);
                      storage == loaded[id := repo]
                      && (persisted.Some? ==> r == Failure(500, "Couldn't store data: " + persisted.value))
                      && (persisted.None? ==>
                            r == Success(BuildTokens(namespace, name, repo.secret, now, tokenPeriod).refresh)))
    {
      if request.Err? {
        return Failure(400, "Failed to bind request JSON: " + request.message);
      }
      var err := LoadRepos(list);
      if err.Some? {
        return Failure(500, "Couldn't load repos: " + err.value);
      }
      var id := RepoId(namespace, name);
      if id !in storage {
        return Failure(400, "Repo not found: " + namespace + "/" + name);
      }
      var repo := storage[id];
      if request.value || repo.secret == "" {
        repo := repo.(secret := generated);
      }
      storage := storage[id := repo];
      if persisted.Some? {
        return Failure(500, "Couldn't store data: " + persisted.value);
      }
      var _, key := NewBuildToken(namespace, name, repo.secret, now, tokenPeriod);
      return Success(key);
    }
  }
}
