/** core/repository.go: the registry's two indexes. Repositories are immutable objects, told
    apart by identity as the source's pointers are. */
module Registry {
  import opened Outcomes
  import opened Derive

  class Repository {
    const info: Info

    constructor (info: Info)
      ensures this.info == info
    {
      this.info := info;
    }
  }

  datatype Index = Index(repos: map<string, Repository>, byPrefix: map<string, Repository>)

  const EMPTY := Index(map[], map[])

  /** The part of Register after validation, `invalid` being its verdict. */
  function Indexed(ix: Index, repo: Repository, invalid: Option<Failure>): (Index, Option<Failure>) {
    if invalid.Some? then (ix, invalid)
    else if repo.info.id in ix.repos then (ix, if ix.repos[repo.info.id] == repo then None else Some(IdTaken))
    else if repo.info.beadPrefix in ix.byPrefix && ix.byPrefix[repo.info.beadPrefix] != repo
    then (ix, Some(PrefixTaken))
    else (Index(ix.repos[repo.info.id := repo], ix.byPrefix[repo.info.beadPrefix := repo]), None)
  }

  /** Register: the index afterwards, and why it was refused if it was. */
  function Registered(ix: Index, repo: Repository?): (Index, Option<Failure>) {
    if repo == null then (ix, Some(NilRepository)) else Indexed(ix, repo, Validate(repo.info))
  }

  /** The two indexes hold the same repositories, each under its own id and prefix. */
  ghost predicate Inverse(ix: Index) {
    && (forall id | id in ix.repos ::
          var r := ix.repos[id];
          r.info.id == id && r.info.beadPrefix in ix.byPrefix && ix.byPrefix[r.info.beadPrefix] == r)
    && (forall p | p in ix.byPrefix ::
          var r := ix.byPrefix[p];
          r.info.beadPrefix == p && r.info.id in ix.repos && ix.repos[r.info.id] == r)
  }

  ghost predicate AllValid(ix: Index) {
    forall id | id in ix.repos :: Validate(ix.repos[id].info).None?
  }

  class RepositoryRegistry {
    var repos: map<string, Repository>
    var byPrefix: map<string, Repository>

    ghost function Ix(): Index
      reads this
    {
      Index(repos, byPrefix)
    }

    constructor ()
      ensures Ix() == EMPTY && Inverse(Ix()) && AllValid(Ix())
    {
      repos, byPrefix := map[], map[];
    }

    method Register(repo: Repository?) returns (failed: Option<Failure>)
      requires Inverse(Ix())
      modifies this
      ensures Inverse(Ix()) && (old(AllValid(Ix())) ==> AllValid(Ix()))
      ensures (Ix(), failed) == Registered(old(Ix()), repo)
    {
      ValidKept(Ix(), repo);
      if repo == null {
        return Some(NilRepository);
      }
      failed := Add(repo, Validate(repo.info));
    }

    /** Register from the point where validation has answered. */
    method Add(repo: Repository, invalid: Option<Failure>) returns (failed: Option<Failure>)
      requires Inverse(Ix())
      modifies this
      ensures Inverse(Ix()) && (Ix(), failed) == Indexed(old(Ix()), repo, invalid)
    {
      IndexKeepsInverse(Ix(), repo, invalid);
      if invalid.Some? {
        return invalid;
      }
      if repo.info.id in repos {
        if repos[repo.info.id] == repo {
          return None;
        }
        return Some(IdTaken);
      }
      if repo.info.beadPrefix in byPrefix && byPrefix[repo.info.beadPrefix] != repo {
        return Some(PrefixTaken);
      }
      repos := repos[repo.info.id := repo];
      byPrefix := byPrefix[repo.info.beadPrefix := repo];
      return None;
    }

    method Get(id: string) returns (r: Repository?)
      requires Inverse(Ix())
      ensures r == if id in repos then repos[id] else null
      ensures r != null ==> r.info.id == id && r.info.beadPrefix in byPrefix && byPrefix[r.info.beadPrefix] == r
    {
      if id in repos {
        return repos[id];
      }
      return null;
    }

    method GetByPrefix(prefix: string) returns (r: Repository?)
      requires Inverse(Ix())
      ensures r == if prefix in byPrefix then byPrefix[prefix] else null
      ensures r != null ==> r.info.beadPrefix == prefix && r.info.id in repos && repos[r.info.id] == r
    {
      if prefix in byPrefix {
        return byPrefix[prefix];
      }
      return null;
    }
  }

  /** One registration keeps the indexes inverse to each other. It changes them exactly when the
      repository is valid and its id and prefix are both new; then nothing else is disturbed. */
  lemma IndexKeepsInverse(ix: Index, repo: Repository, invalid: Option<Failure>)
    requires Inverse(ix)
    ensures var (next, failed) := Indexed(ix, repo, invalid);
      && Inverse(next)
      && (failed.Some? ==> next == ix)
      && (next != ix <==> invalid.None? && repo.info.id !in ix.repos && repo.info.beadPrefix !in ix.byPrefix)
      && (forall id | id in ix.repos :: id in next.repos && next.repos[id] == ix.repos[id])
      && (failed.None? ==> repo.info.id in next.repos && next.repos[repo.info.id] == repo)
  {
    if repo.info.id !in ix.repos && invalid.None? && repo.info.beadPrefix !in ix.byPrefix {
      assert repo.info.id in Indexed(ix, repo, invalid).0.repos;
    }
  }

  lemma ValidKept(ix: Index, repo: Repository?)
    ensures AllValid(ix) ==> AllValid(Registered(ix, repo).0)
  {
    if repo != null {
      AddedOnlyIfValid(ix, repo, Validate(repo.info));
    }
  }

  lemma AddedOnlyIfValid(ix: Index, repo: Repository, invalid: Option<Failure>)
    ensures var next := Indexed(ix, repo, invalid).0;
      forall id | id in next.repos ::
        (id in ix.repos && next.repos[id] == ix.repos[id]) || (next.repos[id] == repo && invalid.None?)
  {
  }

  /** Registering the same repository again succeeds and changes nothing. */
  lemma RegisterTwice(ix: Index, repo: Repository, invalid: Option<Failure>)
    requires Inverse(ix) && Indexed(ix, repo, invalid).1.None?
    ensures Indexed(Indexed(ix, repo, invalid).0, repo, invalid) == (Indexed(ix, repo, invalid).0, None)
  {
  }

  function RegisterRun(ix: Index, calls: seq<Repository?>): Index {
    if calls == [] then ix else Registered(RegisterRun(ix, calls[..|calls| - 1]), calls[|calls| - 1]).0
  }

  /** After any sequence of registrations, refused ones included. */
  lemma {:induction false} AnyRunKeepsInverse(ix: Index, calls: seq<Repository?>)
    requires Inverse(ix) && AllValid(ix)
    ensures Inverse(RegisterRun(ix, calls)) && AllValid(RegisterRun(ix, calls))
    ensures forall id | id in ix.repos ::
              id in RegisterRun(ix, calls).repos && RegisterRun(ix, calls).repos[id] == ix.repos[id]
  {
    if calls != [] {
      var mid, repo := RegisterRun(ix, calls[..|calls| - 1]), calls[|calls| - 1];
      AnyRunKeepsInverse(ix, calls[..|calls| - 1]);
      ValidKept(mid, repo);
      if repo != null {
        IndexKeepsInverse(mid, repo, Validate(repo.info));
      }
    }
  }

  // Loading a directory

  /** What LoadRepositoriesDir yields: valid repositories, each keyed by its own id. */
  ghost predicate Loadable(files: map<string, Repository>) {
    forall id | id in files :: files[id].info.id == id && Validate(files[id].info).None?
  }

  function PrefixOf(files: map<string, Repository>, id: string): string
    requires id in files
  {
    files[id].info.beadPrefix
  }

  predicate PrefixesDistinct(files: map<string, Repository>, ids: seq<string>)
    requires forall id | id in ids :: id in files
  {
    forall i, j | 0 <= i < j < |ids| :: PrefixOf(files, ids[i]) != PrefixOf(files, ids[j])
  }

  /** The ids of `files`, each once, in some order (the source sorts them). */
  predicate Enumerates(ids: seq<string>, files: map<string, Repository>) {
    && (forall id | id in ids :: id in files)
    && (forall id | id in files :: id in ids)
    && (forall i, j | 0 <= i < j < |ids| :: ids[i] != ids[j])
  }

  /** The index holding the first `k` repositories. */
  ghost predicate Holds(ix: Index, files: map<string, Repository>, ids: seq<string>, k: nat)
    requires k <= |ids| && forall id | id in ids :: id in files
  {
    && (forall id :: id in ix.repos <==> id in ids[..k])
    && (forall i | 0 <= i < k :: ids[i] in ix.repos && ix.repos[ids[i]] == files[ids[i]])
  }

  method LoadRepositoryRegistry(files: map<string, Repository>, ids: seq<string>)
    returns (reg: RepositoryRegistry, failed: Option<Failure>)
    requires Loadable(files) && Enumerates(ids, files)
    ensures fresh(reg) && Inverse(reg.Ix()) && AllValid(reg.Ix())
    ensures failed == if PrefixesDistinct(files, ids) then None else Some(PrefixTaken)
    ensures failed.None? ==> reg.repos == files
  {
    reg := new RepositoryRegistry();
    for k := 0 to |ids|
      invariant fresh(reg) && Inverse(reg.Ix()) && AllValid(reg.Ix()) && Holds(reg.Ix(), files, ids, k)
      invariant PrefixesDistinct(files, ids[..k])
    {
      assert ids[k] in ids && Validate(files[ids[k]].info).None?;
      RegisterNext(reg.Ix(), files, ids, k);
      failed := reg.Register(files[ids[k]]);
      if failed.Some? {
        return;
      }
    }
    HoldsAll(reg.Ix(), files, ids);
    assert ids[..|ids|] == ids;
    return reg, None;
  }

  /** Which enumeration of the ids is used decides neither success nor the result. */
  lemma OrderDoesNotMatter(files: map<string, Repository>, ids: seq<string>, ids': seq<string>)
    requires Enumerates(ids, files) && Enumerates(ids', files)
    ensures PrefixesDistinct(files, ids) == PrefixesDistinct(files, ids')
  {
    if PrefixesDistinct(files, ids) {
      DistinctInAnyOrder(files, ids, ids');
    }
    if PrefixesDistinct(files, ids') {
      DistinctInAnyOrder(files, ids', ids);
    }
  }

  lemma DistinctInAnyOrder(files: map<string, Repository>, ids: seq<string>, ids': seq<string>)
    requires Enumerates(ids, files) && Enumerates(ids', files) && PrefixesDistinct(files, ids)
    ensures PrefixesDistinct(files, ids')
  {
    forall i, j | 0 <= i < j < |ids'| ensures PrefixOf(files, ids'[i]) != PrefixOf(files, ids'[j]) {
      assert ids'[i] in ids && ids'[j] in ids && ids'[i] != ids'[j];
      var m :| 0 <= m < |ids| && ids[m] == ids'[i];
      var n :| 0 <= n < |ids| && ids[n] == ids'[j];
      assert m < n || n < m;
    }
  }

  lemma HoldsAll(ix: Index, files: map<string, Repository>, ids: seq<string>)
    requires Enumerates(ids, files) && Holds(ix, files, ids, |ids|)
    ensures ix.repos == files
  {
    assert ids[..|ids|] == ids;
    forall id | id in files ensures id in ix.repos && ix.repos[id] == files[id] {
      var i :| 0 <= i < |ids| && ids[i] == id;
      assert ids[i] in ix.repos;
    }
  }

  lemma RegisterNext(ix: Index, files: map<string, Repository>, ids: seq<string>, k: nat)
    requires Enumerates(ids, files) && k < |ids| && forall id | id in files :: files[id].info.id == id
    requires Inverse(ix) && Holds(ix, files, ids, k) && PrefixesDistinct(files, ids[..k])
    ensures var (next, failed) := Indexed(ix, files[ids[k]], None);
      && (failed.None? <==> PrefixesDistinct(files, ids[..k + 1]))
      && (failed.None? ==> Holds(next, files, ids, k + 1))
      && (failed.Some? ==> failed == Some(PrefixTaken) && !PrefixesDistinct(files, ids))
  {
    var repo := files[ids[k]];
    assert ids[k] in ids && ids[k] !in ids[..k];
    assert ids[..k + 1] == ids[..k] + [ids[k]];
    if repo.info.beadPrefix in ix.byPrefix {
      PrefixSeen(ix, files, ids, k);
    } else {
      PrefixNew(ix, files, ids, k);
    }
  }

  lemma PrefixSeen(ix: Index, files: map<string, Repository>, ids: seq<string>, k: nat)
    requires Enumerates(ids, files) && k < |ids| && forall id | id in files :: files[id].info.id == id
    requires Inverse(ix) && Holds(ix, files, ids, k) && files[ids[k]].info.beadPrefix in ix.byPrefix
    ensures !PrefixesDistinct(files, ids[..k + 1]) && !PrefixesDistinct(files, ids)
    ensures ix.byPrefix[files[ids[k]].info.beadPrefix] != files[ids[k]]
  {
    var other := ix.byPrefix[files[ids[k]].info.beadPrefix];
    assert other.info.id in ids[..k];
    var i :| 0 <= i < k && ids[i] == other.info.id;
    assert ids[i] in ids && files[ids[i]] == other && PrefixOf(files, ids[i]) == PrefixOf(files, ids[k]);
    assert ids[..k + 1][i] == ids[i] && ids[..k + 1][k] == ids[k];
  }

  lemma PrefixNew(ix: Index, files: map<string, Repository>, ids: seq<string>, k: nat)
    requires Enumerates(ids, files) && k < |ids|
    requires Inverse(ix) && Holds(ix, files, ids, k) && files[ids[k]].info.beadPrefix !in ix.byPrefix
    requires PrefixesDistinct(files, ids[..k])
    ensures PrefixesDistinct(files, ids[..k + 1])
  {
    forall i | 0 <= i < k ensures PrefixOf(files, ids[i]) != PrefixOf(files, ids[k]) {
      assert ids[i] in ix.repos;
    }
    OneMoreDistinct(files, ids[..k], ids[k]);
    assert ids[..k + 1] == ids[..k] + [ids[k]];
  }

  lemma OneMoreDistinct(files: map<string, Repository>, ids: seq<string>, last: string)
    requires (forall id | id in ids :: id in files) && last in files && PrefixesDistinct(files, ids)
    requires forall i | 0 <= i < |ids| :: PrefixOf(files, ids[i]) != PrefixOf(files, last)
    ensures PrefixesDistinct(files, ids + [last])
  {
    var longer := ids + [last];
    forall i, j | 0 <= i < j < |longer| ensures PrefixOf(files, longer[i]) != PrefixOf(files, longer[j]) {
      if j < |ids| {
        assert longer[i] == ids[i] && longer[j] == ids[j];
      }
    }
  }

  // In plain terms

  /** What a registration answers and leaves, case by case. */
  lemma RegisterMeans(ix: Index, repo: Repository)
    requires Inverse(ix)
    ensures var (next, failed) := Registered(ix, repo);
            var id := repo.info.id; var prefix := repo.info.beadPrefix; var invalid := Validate(repo.info);
            && (invalid.Some? ==> failed == invalid && next == ix)
            && (invalid.None? && id in ix.repos && ix.repos[id] == repo ==> failed.None? && next == ix)
            && (invalid.None? && id in ix.repos && ix.repos[id] != repo ==> failed == Some(IdTaken) && next == ix)
            && (invalid.None? && id !in ix.repos && prefix in ix.byPrefix ==> failed == Some(PrefixTaken) && next == ix)
            && (invalid.None? && id !in ix.repos && prefix !in ix.byPrefix ==>
                  failed.None? && next.repos == ix.repos[id := repo] && next.byPrefix == ix.byPrefix[prefix := repo])
    ensures Registered(ix, null) == (ix, Some(NilRepository))
  {
    RegisterCases(ix, repo, Validate(repo.info));
  }

  lemma RegisterCases(ix: Index, repo: Repository, invalid: Option<Failure>)
    requires Inverse(ix)
    ensures var (next, failed) := Indexed(ix, repo, invalid);
            var id := repo.info.id; var prefix := repo.info.beadPrefix;
            && (invalid.Some? ==> failed == invalid && next == ix)
            && (invalid.None? && id in ix.repos && ix.repos[id] == repo ==> failed.None? && next == ix)
            && (invalid.None? && id in ix.repos && ix.repos[id] != repo ==> failed == Some(IdTaken) && next == ix)
            && (invalid.None? && id !in ix.repos && prefix in ix.byPrefix ==> failed == Some(PrefixTaken) && next == ix)
            && (invalid.None? && id !in ix.repos && prefix !in ix.byPrefix ==>
                  failed.None? && next.repos == ix.repos[id := repo] && next.byPrefix == ix.byPrefix[prefix := repo])
  {
  }
}
