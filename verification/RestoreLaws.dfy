/** Backup and restore in plain terms: every file name, prefix and failure spelled out, without the
    definitions the two are modelled with. */
module RestoreLaws {
  import opened Outcomes
  import opened Paths
  import opened Backup
  import opened Restore
  import opened RestoreProofs
  import opened RoundTrip

  /** What every path strictly below a directory begins with. */
  function Inside(root: string): string {
    if root == "/" then "/" else root + "/"
  }

  // The disk

  /** Writing a file works when no directory above it is taken by something else and it is no
      directory itself; then it holds the bytes, everything above it is a directory, and nothing
      else changed or appeared. */
  lemma WriteLaw(disk: Tree, path: string, data: Bytes)
    ensures WriteFile(disk, path, data).Some? <==>
              && (forall a | a in disk && a != "" && a + "/" <= path :: disk[a].Dir?)
              && (path in disk ==> disk[path].Regular?)
    ensures WriteFile(disk, path, data).Some? ==>
              var after := WriteFile(disk, path, data).value;
              && path in after && after[path] == Regular(data)
              && (forall a | a != "" && a + "/" <= path :: a in after && after[a] == Dir)
              && (forall q | q in disk && q != path :: q in after && after[q] == disk[q])
              && (forall q | q in after && q != path && q !in disk :: after[q] == Dir && q + "/" <= path)
  {
    forall a ensures a in Ancestors(path) <==> a != "" && a + "/" <= path {
      AboveIff(a, path);
    }
  }

  lemma AboveIff(a: string, path: string)
    ensures a in Ancestors(path) <==> a != "" && a + "/" <= path
  {
    if a != "" && a + "/" <= path {
      assert path[|a|] == (a + "/")[|a|] == '/' && path[..|a|] == (a + "/")[..|a|] == a;
    }
    if a in Ancestors(path) {
      var i :| 0 < i < |path| && path[i] == '/' && a == path[..i];
      assert a + "/" == path[..i + 1];
    }
  }

  /** So does making a directory, which may be there already. */
  lemma MkdirLaw(disk: Tree, path: string)
    ensures MkdirAll(disk, path).Some? <==>
              forall a | a in disk && (a == path || (a != "" && a + "/" <= path)) :: disk[a].Dir?
    ensures MkdirAll(disk, path).Some? ==>
              var after := MkdirAll(disk, path).value;
              && path in after && after[path] == Dir
              && (forall a | a != "" && a + "/" <= path :: a in after && after[a] == Dir)
              && (forall q | q in disk :: q in after && after[q] == disk[q])
              && (forall q | q in after && q !in disk :: after[q] == Dir && (q == path || q + "/" <= path))
  {
    forall a ensures a in Ancestors(path) <==> a != "" && a + "/" <= path {
      AboveIff(a, path);
    }
  }

  // The target

  lemma {:induction false} LaterFailures(job: Job, st: Progress, entries: seq<Entry>)
    requires st.failed != Some(NotEmpty)
    ensures ExtractAll(job, st, entries).failed != Some(NotEmpty)
  {
    if entries != [] {
      LaterFailures(job, st, entries[..|entries| - 1]);
      LaterFailure(job, ExtractAll(job, st, entries[..|entries| - 1]), entries[|entries| - 1]);
    }
  }

  lemma LaterFailure(job: Job, st: Progress, e: Entry)
    requires st.failed != Some(NotEmpty)
    ensures ExtractOne(job, st, e).failed != Some(NotEmpty)
  {
  }

  ghost predicate SomethingInside(disk: Tree, root: string) {
    exists q | q in disk :: Inside(root) < q
  }

  /** Without force, and only without it, a restore refuses a directory that holds something; then
      nothing on disk changes, whatever the archive. */
  lemma RefusesExactlyNonEmpty(job: Job, disk: Tree, entries: seq<Entry>)
    requires job.root in disk ==> disk[job.root].Dir?
    ensures RestoreAll(job, disk, entries).failed == Some(NotEmpty) <==> !job.force && SomethingInside(disk, job.root)
    ensures !job.force && SomethingInside(disk, job.root) ==> RestoreAll(job, disk, entries).disk == disk
  {
    var st := Begin(job, disk);
    if !job.force && SomethingInside(disk, job.root) {
      FailedStays(job, st, entries);
    } else {
      LaterFailures(job, st, entries);
    }
  }

  /** Otherwise the directory is made, and the archive decides. A file in its place is an error. */
  lemma StartsWithTheDirectory(job: Job, disk: Tree)
    ensures job.root in disk && !disk[job.root].Dir? ==> Begin(job, disk).failed == Some(WriteFailed)
    ensures (job.root in disk ==> disk[job.root].Dir?) && (job.force || !SomethingInside(disk, job.root)) ==>
              Begin(job, disk) == match MkdirAll(disk, job.root)
                                  case None => Progress(disk, map[], None, Some(WriteFailed))
                                  case Some(made) => Progress(made, map[], None, None)
  {
  }

  // The entries

  /** Written to `dest`, the checksum recorded under the entry's cleaned name. */
  function FileAt(job: Job, st: Progress, name: string, dest: string, body: Bytes): Progress {
    match WriteFile(st.disk, dest, body)
    case None => st.(failed := Some(WriteFailed))
    case Some(disk) => st.(disk := disk, sums := st.sums[name := job.codec.hash(body)])
  }

  /** What an entry does, by its cleaned name. One with ".." in it ends the restore. */
  lemma EscapingEntryLaw(job: Job, st: Progress, e: Entry)
    requires st.failed.None? && HasDots(Clean(e.name))
    ensures ExtractOne(job, st, e) == st.(failed := Some(Escapes))
  {
    NamedEntry(job, st, e, Escaping, Clean(e.name));
  }

  /** The manifest is decoded and kept, the last one counting. */
  lemma ManifestEntryLaw(job: Job, st: Progress, e: Entry)
    requires st.failed.None? && Clean(e.name) == "manifest.json"
    ensures ExtractOne(job, st, e) == match job.codec.decode(e.body)
                                      case None => st.(failed := Some(BadManifest))
                                      case Some(m) => st.(manifest := Some(m))
  {
    IsManifest(Clean(e.name));
    NamedEntry(job, st, e, Manifest, Clean(e.name));
  }

  lemma IsManifest(name: string)
    requires name == "manifest.json"
    ensures CaseOf(name) == Manifest
  {
    FixedCases();
  }

  /** The audit log goes to its own destination. */
  lemma AuditEntryLaw(job: Job, st: Progress, e: Entry)
    requires st.failed.None? && Clean(e.name) == "audit.jsonl"
    ensures ExtractOne(job, st, e) == FileAt(job, st, Clean(e.name), job.auditOut, e.body)
  {
    IsAudit(Clean(e.name));
    NamedEntry(job, st, e, Audit, Clean(e.name));
  }

  lemma IsAudit(name: string)
    requires name == "audit.jsonl"
    ensures CaseOf(name) == Audit && name == AUDIT
  {
    FixedCases();
  }

  /** A dolt dump is written below the data directory whatever its type. */
  lemma DumpEntryLaw(job: Job, st: Progress, e: Entry)
    requires st.failed.None? && !HasDots(Clean(e.name)) && "dolt-dumps/" <= Clean(e.name)
    ensures ExtractOne(job, st, e) == FileAt(job, st, Clean(e.name), Inside(job.root) + Clean(e.name), e.body)
  {
    DumpCase(Clean(e.name));
    NamedEntry(job, st, e, Dump, Clean(e.name));
  }

  lemma DumpCase(name: string)
    requires "dolt-dumps/" <= name && !HasDots(name)
    ensures CaseOf(name) == Dump && name != AUDIT
  {
    assert name[0] == 'd' && MANIFEST[0] == 'm' && AUDIT[0] == 'a';
  }

  /** The data itself: directories are made, files written below the data directory. */
  lemma DataEntryLaw(job: Job, st: Progress, e: Entry)
    requires st.failed.None? && !HasDots(Clean(e.name))
    requires var name := Clean(e.name); "dolt/" <= name || "workspaces/" <= name || name == "vault.db"
    ensures var name := Clean(e.name);
            ExtractOne(job, st, e) == if !e.isDir then FileAt(job, st, name, Inside(job.root) + name, e.body)
                                      else match MkdirAll(st.disk, Inside(job.root) + name)
                                        case None => st.(failed := Some(WriteFailed))
                                        case Some(disk) => st.(disk := disk)
  {
    var name := Clean(e.name);
    DataCase(name);
    NamedEntry(job, st, e, Data, name);
  }

  lemma DataCase(name: string)
    requires ("dolt/" <= name || "workspaces/" <= name || name == "vault.db") && !HasDots(name)
    ensures CaseOf(name) == Data && name != AUDIT
  {
    if name == "vault.db" {
      VaultCase();
    } else {
      TreeCase(name);
    }
  }

  /** Anything else is skipped. */
  lemma UnknownEntryLaw(job: Job, st: Progress, e: Entry)
    requires st.failed.None? && !HasDots(Clean(e.name))
    requires var name := Clean(e.name);
             && name != "manifest.json" && name != "audit.jsonl" && name != "vault.db"
             && !("dolt-dumps/" <= name) && !("dolt/" <= name) && !("workspaces/" <= name)
    ensures ExtractOne(job, st, e) == st
  {
    NamedEntry(job, st, e, Unknown, Clean(e.name));
  }

  /** Entries are taken in order, and the first failure ends the restore. */
  lemma EntriesInOrder(job: Job, st: Progress, entries: seq<Entry>, e: Entry)
    ensures ExtractAll(job, st, []) == st
    ensures ExtractAll(job, st, entries + [e]) == ExtractOne(job, ExtractAll(job, st, entries), e)
    ensures ExtractAll(job, st, entries).failed.Some? ==>
              ExtractAll(job, st, entries + [e]) == ExtractAll(job, st, entries)
  {
    assert (entries + [e])[..|entries|] == entries;
  }

  /** After the last entry: a manifest must have come, and every checksum it claims must be one that
      was recorded. The disk stays as it is either way. */
  lemma EndLaw(job: Job, disk: Tree, entries: seq<Entry>)
    ensures var st := ExtractAll(job, Begin(job, disk), entries); var end := RestoreAll(job, disk, entries);
            && end.disk == st.disk
            && (st.failed.Some? ==> end.failed == st.failed)
            && (st.failed.None? && st.manifest.None? ==> end.failed == Some(NoManifest))
            && (st.failed.None? && st.manifest.Some? ==>
                  end.failed == if forall name | name in st.manifest.value ::
                                     name in st.sums && st.sums[name] == st.manifest.value[name]
                                then None else Some(Mismatch))
  {
  }

  // The archive

  /** Below one of the two directories that are backed up. */
  predicate InData(path: string) {
    "dolt/" <= path || "workspaces/" <= path
  }

  /** What a backup stores: the regular files and directories below dolt/ and workspaces/, vault.db
      and the configured audit log, as they are, and a manifest with their checksums. */
  lemma BackupHolds(src: Source, codec: Codec, archive: seq<Entry>) returns (sums: map<string, string>)
    requires Packs(src, codec, archive)
    ensures archive != []
    ensures archive[|archive| - 1] == Entry("manifest.json", false, codec.encode(sums))
    ensures var body := archive[..|archive| - 1];
            && (forall path | path in src.tree && InData(path) && src.tree[path].Regular? ::
                  Entry(path, false, src.tree[path].data) in body)
            && (forall path | path in src.tree && InData(path) && src.tree[path].Dir? ::
                  Entry(path + "/", true, "") in body)
            && (forall e | e in body && !e.isDir :: e.name in sums && sums[e.name] == codec.hash(e.body))
    ensures var body := archive[..|archive| - 1];
            && ("vault.db" in src.tree && !src.tree["vault.db"].Dir? ==>
                  Entry("vault.db", false, src.tree["vault.db"].data) in body)
            && (src.audit.Some? && !src.audit.value.Dir? ==> Entry("audit.jsonl", false, src.audit.value.data) in body)
  {
    var body := archive[..|archive| - 1];
    sums := SumsOf(codec, body);
    SumsOfFaithful(src, codec, body);
    forall e | e in body && !e.isDir ensures e.name in sums && sums[e.name] == codec.hash(e.body) {
      SumsOfHas(codec, body, e);
      assert Faithful(src, e);
    }
    forall path | path in src.tree && InData(path) && src.tree[path].Regular?
      ensures Entry(path, false, src.tree[path].data) in body
    {
      TreeFileSaved(src, path);
      assert path in SavedNames(src);
    }
    forall path | path in src.tree && InData(path) && src.tree[path].Dir?
      ensures Entry(path + "/", true, "") in body
    {
      assert SavedDir(src, path);
    }
    VaultSaved(src, body, VAULT);
    AuditSaved(src, body, AUDIT);
  }

  lemma TreeFileSaved(src: Source, path: string)
    requires path in src.tree && InData(path) && src.tree[path].Regular?
    ensures Saved(src, path) == Some(src.tree[path].data) && path in SavedNames(src) && path != AUDIT
  {
    assert path[0] == 'd' || path[0] == 'w';
    assert AUDIT[0] == 'a' && VAULT[0] == 'v';
    assert path in src.tree.Keys + {AUDIT, VAULT};
  }

  lemma VaultSaved(src: Source, body: seq<Entry>, vault: string)
    requires vault == VAULT
    requires forall name | name in SavedNames(src) :: Entry(name, false, Saved(src, name).value) in body
    ensures vault in src.tree && !src.tree[vault].Dir? ==>
              && Saved(src, vault) == Some(src.tree[vault].data) && vault in SavedNames(src) && vault != AUDIT
              && Entry(vault, false, src.tree[vault].data) in body
  {
    NoSlash(AUDIT);
    assert AUDIT[0] == 'a' && VAULT[0] == 'v';
    if vault in src.tree && !src.tree[vault].Dir? {
      assert vault in src.tree.Keys + {AUDIT, VAULT};
    }
  }

  lemma AuditSaved(src: Source, body: seq<Entry>, audit: string)
    requires audit == AUDIT
    requires forall name | name in SavedNames(src) :: Entry(name, false, Saved(src, name).value) in body
    ensures src.audit.Some? && !src.audit.value.Dir? ==>
              && Saved(src, audit) == Some(src.audit.value.data) && audit in SavedNames(src)
              && Entry(audit, false, src.audit.value.data) in body
  {
    if src.audit.Some? && !src.audit.value.Dir? {
      assert audit in src.tree.Keys + {AUDIT, VAULT};
    }
  }

  /** And nothing else. */
  lemma BackupHoldsOnly(src: Source, codec: Codec, archive: seq<Entry>, e: Entry)
    requires Packs(src, codec, archive) && e in archive[..|archive| - 1]
    ensures e.isDir ==> exists path | path in src.tree ::
              ("dolt/" <= path || "workspaces/" <= path) && src.tree[path].Dir? && e.name == path + "/"
    ensures !e.isDir ==>
              || (e.name == "audit.jsonl" && src.audit.Some? && e.body == src.audit.value.data && !src.audit.value.Dir?)
              || (e.name in src.tree && !src.tree[e.name].Dir? && e.body == src.tree[e.name].data
                  && (e.name == "vault.db"
                      || (src.tree[e.name].Regular? && ("dolt/" <= e.name || "workspaces/" <= e.name))))
  {
    assert Faithful(src, e);
    if e.isDir {
      var path :| SavedDir(src, path) && e.name == path + "/";
      assert path in src.tree;
    }
  }

  // There and back

  /** With names free of ".." that the manifest carries, a restore into an empty directory succeeds
      and brings everything back: the files and directories below dolt/ and workspaces/, vault.db,
      and the audit log at its place. */
  lemma EverythingComesBack(job: Job, src: Source, disk0: Tree, archive: seq<Entry>)
    requires Setting(job, src, disk0) && Packs(src, job.codec, archive)
    requires forall path | path in src.tree :: !HasDots(path) && job.codec.carry(path) == path
    ensures var end := RestoreAll(job, disk0, archive); var home := Inside(job.root);
            && end.failed.None?
            && (forall path | path in src.tree && InData(path) && src.tree[path].Regular? ::
                  home + path in end.disk && end.disk[home + path] == src.tree[path])
            && (forall path | path in src.tree && InData(path) && src.tree[path].Dir? ::
                  home + path in end.disk && end.disk[home + path].Dir?)
    ensures var end := RestoreAll(job, disk0, archive); var home := Inside(job.root);
            && ("vault.db" in src.tree && !src.tree["vault.db"].Dir? ==>
                  home + "vault.db" in end.disk && end.disk[home + "vault.db"] == Regular(src.tree["vault.db"].data))
            && (src.audit.Some? && !src.audit.value.Dir? ==>
                  job.auditOut in end.disk && end.disk[job.auditOut] == Regular(src.audit.value.data))
            && (forall q | q in disk0 && q != job.auditOut :: q in end.disk && end.disk[q] == disk0[q])
  {
    CarriedEverywhere(src, job.codec);
    RestoreUndoesBackup(job, src, disk0, archive);
    TreeComesBack(job, src, disk0, RestoreAll(job, disk0, archive).disk);
    var body := archive[..|archive| - 1];
    VaultSaved(src, body, VAULT);
    AuditSaved(src, body, AUDIT);
  }

  lemma TreeComesBack(job: Job, src: Source, disk0: Tree, disk: Tree)
    requires Reproduced(job, src, disk0, disk)
    ensures forall path | path in src.tree && InData(path) && src.tree[path].Regular? ::
              Inside(job.root) + path in disk && disk[Inside(job.root) + path] == src.tree[path]
    ensures forall path | path in src.tree && InData(path) && src.tree[path].Dir? ::
              Inside(job.root) + path in disk && disk[Inside(job.root) + path].Dir?
  {
    forall path | path in src.tree && InData(path) && src.tree[path].Regular?
      ensures Inside(job.root) + path in disk && disk[Inside(job.root) + path] == src.tree[path]
    {
      TreeFileSaved(src, path);
    }
    forall path | path in src.tree && InData(path) && src.tree[path].Dir?
      ensures Inside(job.root) + path in disk && disk[Inside(job.root) + path].Dir?
    {
      assert SavedDir(src, path);
    }
  }

  lemma CarriedEverywhere(src: Source, codec: Codec)
    requires codec.Lawful() && forall path | path in src.tree :: !HasDots(path) && codec.carry(path) == path
    ensures NoDots(src) && Legible(src, codec)
  {
    FixedName(AUDIT);
    VaultName(VAULT);
    forall name | name in SavedNames(src) ensures codec.carry(name) == name {
      assert name in src.tree || name == AUDIT || name == VAULT;
    }
    CarriedNamesAreLegible(src, codec);
  }

  lemma VaultName(name: string)
    requires name == VAULT
    ensures IsAscii(name) && !HasDots(name)
  {
    VaultCase();
    assert forall i | 0 <= i < |name| :: name[i] < 128 as char;
  }
}
