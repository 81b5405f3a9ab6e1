/** core/types.go: the repositories and branches of a work item. */
module WorkItem {
  import opened Outcomes

  datatype BeadBranch = BeadBranch(repositoryId: string, branch: string)

  datatype RepositoriesError = PrimaryUnset | EmptyEntry | DuplicateEntry(id: string) | PrimaryMissing

  datatype BranchesError =
    | NoRepository | NoBranch(id: string) | DuplicateBranch(id: string) | UnknownRepository(id: string)

  // What the validators decide

  predicate Distinct(ids: seq<string>) {
    forall i, j | 0 <= i < j < |ids| :: ids[i] != ids[j]
  }

  /** Either no repository list at all, or non-empty distinct ids with the primary among them. */
  predicate ValidRepositories(ids: seq<string>, primary: string) {
    ids == [] || ("" !in ids && Distinct(ids) && primary in ids)
  }

  /** Entry i is the one a scan of the ids stops at. */
  predicate BadId(ids: seq<string>, i: nat) {
    i < |ids| && (ids[i] == "" || ids[i] in ids[..i])
  }

  ghost predicate FirstBadId(ids: seq<string>, i: nat) {
    BadId(ids, i) && forall j: nat | j < i :: !BadId(ids, j)
  }

  function IdError(ids: seq<string>, i: nat): RepositoriesError
    requires i < |ids|
  {
    if ids[i] == "" then EmptyEntry else DuplicateEntry(ids[i])
  }

  predicate ValidBranches(branches: seq<BeadBranch>, ids: seq<string>) {
    && (forall i | 0 <= i < |branches| ::
          branches[i].repositoryId != "" && branches[i].branch != "" && branches[i].repositoryId in ids)
    && forall i, j | 0 <= i < j < |branches| :: branches[i].repositoryId != branches[j].repositoryId
  }

  predicate Earlier(branches: seq<BeadBranch>, i: nat)
    requires i < |branches|
  {
    exists j | 0 <= j < i :: branches[j].repositoryId == branches[i].repositoryId
  }

  /** What is wrong with entry i, in the order the checks are made. */
  function BranchProblem(branches: seq<BeadBranch>, ids: seq<string>, i: nat): Option<BranchesError>
    requires i < |branches|
  {
    var br := branches[i];
    if br.repositoryId == "" then Some(NoRepository)
    else if br.branch == "" then Some(NoBranch(br.repositoryId))
    else if Earlier(branches, i) then Some(DuplicateBranch(br.repositoryId))
    else if br.repositoryId !in ids then Some(UnknownRepository(br.repositoryId))
    else None
  }

  ghost predicate FirstProblem(branches: seq<BeadBranch>, ids: seq<string>, i: nat) {
    && i < |branches| && BranchProblem(branches, ids, i).Some?
    && forall j | 0 <= j < i :: BranchProblem(branches, ids, j).None?
  }

  /** The first entry for the id. */
  function BranchFor(branches: seq<BeadBranch>, id: string): Option<string> {
    if branches == [] then None
    else if branches[0].repositoryId == id then Some(branches[0].branch)
    else BranchFor(branches[1..], id)
  }

  function Normalized(ids: seq<string>, primary: string): seq<string> {
    if |ids| == 0 && primary != "" then [primary] else ids
  }

  class WorkItem {
    var repositoryIds: seq<string>
    var primaryRepositoryId: string
    var branches: seq<BeadBranch>

    constructor (ids: seq<string>, primary: string, brs: seq<BeadBranch>)
      ensures repositoryIds == ids && primaryRepositoryId == primary && branches == brs
    {
      repositoryIds, primaryRepositoryId, branches := ids, primary, brs;
    }

    method NormalizeRepositories()
      modifies this`repositoryIds
      ensures repositoryIds == Normalized(old(repositoryIds), primaryRepositoryId)
    {
      if |repositoryIds| == 0 && primaryRepositoryId != "" {
        repositoryIds := [primaryRepositoryId];
      }
    }

    /** Accepts exactly the valid lists; otherwise says what is wrong with the first entry that
        is, or about the primary when the entries are fine. */
    method ValidateRepositories() returns (err: Option<RepositoriesError>)
      ensures err.None? <==> ValidRepositories(repositoryIds, primaryRepositoryId)
      ensures err == Some(PrimaryUnset) <==> repositoryIds != [] && primaryRepositoryId == ""
      ensures primaryRepositoryId != "" ==> forall i: nat | FirstBadId(repositoryIds, i) ::
                err == Some(IdError(repositoryIds, i))
      ensures err == Some(PrimaryMissing) <==>
                && repositoryIds != [] && primaryRepositoryId != "" && primaryRepositoryId !in repositoryIds
                && forall i: nat | i < |repositoryIds| :: !BadId(repositoryIds, i)
    {
      if |repositoryIds| == 0 && primaryRepositoryId == "" {
        return None;
      }
      if |repositoryIds| > 0 && primaryRepositoryId == "" {
        return Some(PrimaryUnset);
      }
      if |repositoryIds| > 0 {
        var seen: set<string> := {};
        var found := false;
        var i := 0;
        while i < |repositoryIds|
          invariant 0 <= i <= |repositoryIds|
          invariant forall id :: id in seen <==> id in repositoryIds[..i]
          invariant forall j: nat | j < i :: !BadId(repositoryIds, j)
          invariant found <==> primaryRepositoryId in repositoryIds[..i]
        {
          var id := repositoryIds[i];
          if id == "" {
            assert FirstBadId(repositoryIds, i);
            return Some(EmptyEntry);
          }
          if id in seen {
            assert FirstBadId(repositoryIds, i);
            var j :| 0 <= j < i && repositoryIds[..i][j] == id;
            assert repositoryIds[j] == repositoryIds[i];
            return Some(DuplicateEntry(id));
          }
          seen := seen + {id};
          if id == primaryRepositoryId {
            found := true;
          }
          assert repositoryIds[..i + 1] == repositoryIds[..i] + [id];
          i := i + 1;
        }
        assert repositoryIds[..i] == repositoryIds;
        NoneBadIsClean(repositoryIds);
        if !found {
          return Some(PrimaryMissing);
        }
      }
      err := None;
    }

    /** Accepts exactly the valid mappings; otherwise reports the first entry with a problem. */
    method ValidateBranches() returns (err: Option<BranchesError>)
      ensures err.None? <==> ValidBranches(branches, repositoryIds)
      ensures forall i: nat | FirstProblem(branches, repositoryIds, i) ::
                err == BranchProblem(branches, repositoryIds, i)
    {
      if |branches| == 0 {
        return None;
      }
      var repoIds := set id | id in repositoryIds;
      var seen: set<string> := {};
      var i := 0;
      while i < |branches|
        invariant 0 <= i <= |branches|
        invariant forall id :: id in seen <==> exists j :: 0 <= j < i && branches[j].repositoryId == id
        invariant forall j: nat | j < i :: BranchProblem(branches, repositoryIds, j).None?
      {
        var br := branches[i];
        assert Earlier(branches, i) <==> br.repositoryId in seen;
        ghost var problem := BranchProblem(branches, repositoryIds, i);
        assert problem.Some? ==> FirstProblem(branches, repositoryIds, i);
        if br.repositoryId == "" {
          return Some(NoRepository);
        }
        if br.branch == "" {
          return Some(NoBranch(br.repositoryId));
        }
        if br.repositoryId in seen {
          return Some(DuplicateBranch(br.repositoryId));
        }
        seen := seen + {br.repositoryId};
        if br.repositoryId !in repoIds {
          return Some(UnknownRepository(br.repositoryId));
        }
        i := i + 1;
      }
      NoProblemIsValid(branches, repositoryIds);
      err := None;
    }

    method FindBranch(id: string) returns (branch: Option<string>)
      ensures branch == BranchFor(branches, id)
    {
      var i := 0;
      while i < |branches|
        invariant 0 <= i <= |branches|
        invariant BranchFor(branches, id) == BranchFor(branches[i..], id)
      {
        if branches[i].repositoryId == id {
          return Some(branches[i].branch);
        }
        assert branches[i..][1..] == branches[i + 1..];
        i := i + 1;
      }
      branch := None;
    }
  }

  lemma NoneBadIsClean(ids: seq<string>)
    requires forall i: nat | i < |ids| :: !BadId(ids, i)
    ensures "" !in ids && Distinct(ids)
  {
    forall i, j | 0 <= i < j < |ids| ensures ids[i] != ids[j] {
      assert !BadId(ids, j);
      assert ids[..j][i] == ids[i];
    }
    forall i | 0 <= i < |ids| ensures ids[i] != "" {
      assert !BadId(ids, i);
    }
  }

  lemma NoProblemIsValid(branches: seq<BeadBranch>, ids: seq<string>)
    requires forall j: nat | j < |branches| :: BranchProblem(branches, ids, j).None?
    ensures ValidBranches(branches, ids)
  {
    forall i, j | 0 <= i < j < |branches| ensures branches[i].repositoryId != branches[j].repositoryId {
      assert BranchProblem(branches, ids, j).None?;
    }
    forall i | 0 <= i < |branches|
      ensures branches[i].repositoryId != "" && branches[i].branch != "" && branches[i].repositoryId in ids
    {
      assert BranchProblem(branches, ids, i).None?;
    }
  }

  // What the checks are for

  /** Normalizing settles after one time, keeps what is valid valid and makes the primary one of
      the ids; a branch mapping that was accepted still is. */
  lemma NormalizingIsSafe(ids: seq<string>, primary: string, branches: seq<BeadBranch>)
    ensures Normalized(Normalized(ids, primary), primary) == Normalized(ids, primary)
    ensures ValidRepositories(Normalized(ids, primary), primary) <==> ValidRepositories(ids, primary)
    ensures ValidRepositories(ids, primary) ==>
              (Normalized(ids, primary) == [] && primary == "") || primary in Normalized(ids, primary)
    ensures ValidBranches(branches, ids) ==> ValidBranches(branches, Normalized(ids, primary))
  {
    if |ids| == 0 && primary != "" {
      assert Normalized(ids, primary) == [primary];
      if branches != [] {
        assert branches[0].repositoryId !in ids;
      }
    }
  }

  /** A scan finds an entry for the id whenever there is one, and the first. */
  lemma {:induction false} BranchForIsFirst(branches: seq<BeadBranch>, id: string)
    ensures BranchFor(branches, id).None? <==> forall i | 0 <= i < |branches| :: branches[i].repositoryId != id
    ensures BranchFor(branches, id).Some? ==> BeadBranch(id, BranchFor(branches, id).value) in branches
  {
    if branches == [] {
    } else if branches[0].repositoryId == id {
      assert branches[0] == BeadBranch(id, branches[0].branch);
    } else {
      var rest := branches[1..];
      BranchForIsFirst(rest, id);
      assert branches == [branches[0]] + rest;
      assert forall i | 0 <= i < |rest| :: rest[i] == branches[i + 1];
      assert forall i | 0 < i < |branches| :: branches[i] == rest[i - 1];
    }
  }

  /** No repository has two different branches. */
  predicate Consistent(branches: seq<BeadBranch>) {
    forall a, b | a in branches && b in branches && a.repositoryId == b.repositoryId :: a.branch == b.branch
  }

  lemma ValidIsConsistent(branches: seq<BeadBranch>, ids: seq<string>)
    requires ValidBranches(branches, ids)
    ensures Consistent(branches)
  {
    forall a, b | a in branches && b in branches && a.repositoryId == b.repositoryId ensures a.branch == b.branch {
      var i :| 0 <= i < |branches| && branches[i] == a;
      var j :| 0 <= j < |branches| && branches[j] == b;
      assert i == j;
    }
  }

  /** On a consistent mapping the scan is a lookup: the id maps to b exactly when the pair is
      there. */
  lemma ScanIsLookup(branches: seq<BeadBranch>, id: string, b: string)
    requires Consistent(branches)
    ensures BranchFor(branches, id) == Some(b) <==> BeadBranch(id, b) in branches
  {
    BranchForIsFirst(branches, id);
  }

  ghost predicate OrderIrrelevant(branches: seq<BeadBranch>) {
    forall other: seq<BeadBranch>, id | multiset(other) == multiset(branches) ::
      BranchFor(other, id) == BranchFor(branches, id)
  }

  lemma SameEntries(one: seq<BeadBranch>, other: seq<BeadBranch>, e: BeadBranch)
    requires multiset(one) == multiset(other)
    ensures e in one <==> e in other
  {
    assert e in one <==> e in multiset(one);
    assert e in other <==> e in multiset(other);
  }

  lemma PermutedLookup(branches: seq<BeadBranch>, other: seq<BeadBranch>, id: string)
    requires Consistent(branches) && multiset(other) == multiset(branches)
    ensures BranchFor(other, id) == BranchFor(branches, id)
  {
    BranchForIsFirst(branches, id);
    BranchForIsFirst(other, id);
    if BranchFor(other, id).Some? {
      SameEntries(other, branches, BeadBranch(id, BranchFor(other, id).value));
    }
    if BranchFor(branches, id).Some? {
      SameEntries(other, branches, BeadBranch(id, BranchFor(branches, id).value));
    }
  }

  /** Entry k moved to the front. */
  function Fronted(branches: seq<BeadBranch>, k: nat): (moved: seq<BeadBranch>)
    requires k < |branches|
    ensures multiset(moved) == multiset(branches)
    ensures BranchFor(moved, branches[k].repositoryId) == Some(branches[k].branch)
  {
    assert branches == branches[..k] + [branches[k]] + branches[k + 1..];
    [branches[k]] + (branches[..k] + branches[k + 1..])
  }

  /** The order of the entries is irrelevant exactly when no repository has two branches. */
  lemma OrderIrrelevantIffConsistent(branches: seq<BeadBranch>)
    ensures OrderIrrelevant(branches) <==> Consistent(branches)
  {
    if Consistent(branches) {
      forall other: seq<BeadBranch>, id | multiset(other) == multiset(branches)
        ensures BranchFor(other, id) == BranchFor(branches, id)
      {
        PermutedLookup(branches, other, id);
      }
    } else {
      var a, b :| a in branches && b in branches && a.repositoryId == b.repositoryId && a.branch != b.branch;
      var i :| 0 <= i < |branches| && branches[i] == a;
      var j :| 0 <= j < |branches| && branches[j] == b;
      var first, second := Fronted(branches, i), Fronted(branches, j);
      assert BranchFor(first, a.repositoryId) != BranchFor(second, a.repositoryId);
    }
  }

  /** A validated item's branches can be listed in any order. */
  lemma ValidatedOrderIsIrrelevant(branches: seq<BeadBranch>, other: seq<BeadBranch>, ids: seq<string>, id: string)
    requires ValidBranches(branches, ids) && multiset(other) == multiset(branches)
    ensures BranchFor(other, id) == BranchFor(branches, id)
    ensures id !in ids ==> BranchFor(branches, id).None?
  {
    ValidIsConsistent(branches, ids);
    PermutedLookup(branches, other, id);
    BranchForIsFirst(branches, id);
  }

  // In plain terms

  /** Valid repositories: no list, or non-empty ids, each once, and the primary among them. */
  lemma ValidRepositoriesMeans(ids: seq<string>, primary: string)
    ensures ValidRepositories(ids, primary) <==>
              || ids == []
              || (&& primary in ids && (forall i | 0 <= i < |ids| :: ids[i] != "")
                  && forall i, j | 0 <= i < j < |ids| :: ids[i] != ids[j])
  {
  }

  /** What a bad entry is reported as: empty, or there already. */
  lemma IdErrorMeans(ids: seq<string>, i: nat)
    requires FirstBadId(ids, i)
    ensures ids[i] == "" ==> IdError(ids, i) == EmptyEntry
    ensures ids[i] != "" ==> IdError(ids, i) == DuplicateEntry(ids[i]) && exists j :: 0 <= j < i && ids[j] == ids[i]
  {
    if ids[i] != "" {
      var j :| 0 <= j < i && ids[..i][j] == ids[i];
      assert ids[j] == ids[i];
    }
  }

  /** Valid branches: each for a known repository, named, and one per repository. */
  lemma ValidBranchesMeans(branches: seq<BeadBranch>, ids: seq<string>)
    ensures ValidBranches(branches, ids) <==>
              && (forall br | br in branches :: br.repositoryId != "" && br.branch != "" && br.repositoryId in ids)
              && forall i, j | 0 <= i < j < |branches| :: branches[i].repositoryId != branches[j].repositoryId
  {
    assert forall i | 0 <= i < |branches| :: branches[i] in branches;
  }

  /** What an entry is reported as, in the order the checks are made. */
  lemma BranchProblemMeans(branches: seq<BeadBranch>, ids: seq<string>, i: nat)
    requires i < |branches|
    ensures var id := branches[i].repositoryId;
            var again := exists j | 0 <= j < i :: branches[j].repositoryId == id;
            BranchProblem(branches, ids, i) ==
              if id == "" then Some(NoRepository)
              else if branches[i].branch == "" then Some(NoBranch(id))
              else if again then Some(DuplicateBranch(id))
              else if id !in ids then Some(UnknownRepository(id))
              else None
  {
  }

  /** Looking a branch up takes the first entry for the id. */
  lemma BranchForLaw(branches: seq<BeadBranch>, first: BeadBranch, id: string)
    ensures BranchFor([], id).None?
    ensures BranchFor([first] + branches, id) ==
              if first.repositoryId == id then Some(first.branch) else BranchFor(branches, id)
  {
    assert ([first] + branches)[1..] == branches;
  }

  /** Only an item with a primary and no list is changed, and then it lists the primary. */
  lemma NormalizedMeans(ids: seq<string>, primary: string)
    ensures ids == [] && primary != "" ==> Normalized(ids, primary) == [primary]
    ensures ids != [] || primary == "" ==> Normalized(ids, primary) == ids
  {
  }
}
