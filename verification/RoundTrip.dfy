/** Restoring a backup into an empty data directory gives the saved files back. */
module RoundTrip {
  import opened Outcomes
  import opened Text
  import opened Paths
  import opened Backup
  import opened Restore
  import opened RestoreProofs

  /** A path as filepath.Walk yields it: cleaned, relative, below directories of the tree. */
  ghost predicate Proper(tree: Tree, path: string) {
    && path != "" && Clean(path) == path && !IsAbs(path)
    && forall a | a in Ancestors(path) :: a in tree && tree[a].Dir?
  }

  ghost predicate WellFormed(tree: Tree) {
    forall path | path in tree :: Proper(tree, path)
  }

  predicate EmptyTarget(job: Job, disk: Tree) {
    job.root != "" && !Occupied(disk, job.root) && !Blocked(disk, Ancestors(job.root) + {job.root})
  }

  // When a source can be restored

  /** No saved file or directory has a name the restore rejects. */
  predicate NoDots(src: Source) {
    forall path | path in src.tree.Keys + {AUDIT, VAULT} && (Saved(src, path).Some? || SavedDir(src, path)) ::
      !HasDots(path)
  }

  function SavedHash(src: Source, codec: Codec, name: string): string
    requires name in SavedNames(src)
  {
    codec.hash(Saved(src, name).value)
  }

  /** What the manifest's text makes of a saved name is a saved name again, with the checksum that
      the text kept under it. */
  predicate CarriedWell(src: Source, codec: Codec, name: string) {
    var names := SavedNames(src);
    var kept := codec.keeper(names, codec.carry(name));
    && codec.carry(name) in names && kept in names
    && SavedHash(src, codec, codec.carry(name)) == SavedHash(src, codec, kept)
  }

  predicate Legible(src: Source, codec: Codec) {
    forall name | name in SavedNames(src) :: CarriedWell(src, codec, name)
  }

  predicate Portable(src: Source, codec: Codec) {
    NoDots(src) && Legible(src, codec)
  }

  /** Names that are valid UTF-8, which the manifest carries unchanged, are always legible. */
  lemma CarriedNamesAreLegible(src: Source, codec: Codec)
    requires codec.Lawful() && forall name | name in SavedNames(src) :: codec.carry(name) == name
    ensures Legible(src, codec)
  {
    forall name | name in SavedNames(src) ensures CarriedWell(src, codec, name) {
      var kept := codec.keeper(SavedNames(src), codec.carry(name));
      assert kept in SavedNames(src) && codec.carry(kept) == kept;
    }
  }

  // Where the audit log goes

  predicate Audited(src: Source) {
    Saved(src, AUDIT).Some?
  }

  /** A file saved under its own path. */
  predicate SavedFile(src: Source, rel: string) {
    rel != AUDIT && Saved(src, rel).Some?
  }

  predicate KeptDir(src: Source, rel: string) {
    rel in src.tree && src.tree[rel].Dir? && (InTrees(rel) || rel == "dolt" || rel == "workspaces")
  }

  /** Nothing saved needs this place in the data directory, or has a file above it. */
  predicate Clear(src: Source, rel: string) {
    !SavedFile(src, rel) && !KeptDir(src, rel) && forall a | a in Ancestors(rel) :: !SavedFile(src, a)
  }

  /** An audit log that is restored can be: its place is no directory the data directory lies in,
      nothing on disk or among the saved files is in the way, and it is in no saved file's way. */
  predicate AuditPlaced(job: Job, src: Source, disk: Tree) {
    Audited(src) ==>
      && job.auditOut !in Ancestors(job.root) + {job.root}
      && !Blocked(disk, Ancestors(job.auditOut)) && (job.auditOut in disk ==> disk[job.auditOut].Regular?)
      && (Slashed(job.root) <= job.auditOut ==> Clear(src, job.auditOut[|Slashed(job.root)|..]))
  }

  ghost predicate Setting(job: Job, src: Source, disk: Tree) {
    job.codec.Lawful() && WellFormed(src.tree) && EmptyTarget(job, disk) && AuditPlaced(job, src, disk)
  }

  lemma NoSlash(name: string)
    requires name == AUDIT || name == VAULT
    ensures Ancestors(name) == {} && !InTrees(name) && name != "" && !IsAbs(name)
    ensures name != "dolt" && name != "workspaces"
  {
    assert forall i :: 0 <= i < |name| ==> name[i] != '/';
    assert DOLT[0] == 'd' && WORKSPACES[0] == 'w' && AUDIT[0] == 'a' && VAULT[0] == 'v';
  }

  lemma DefaultAncestors(job: Job, name: string, a: string)
    requires job.root != "" && (name == AUDIT || name == VAULT) && a in Ancestors(Slashed(job.root) + name)
    ensures a in Ancestors(job.root) + {job.root}
  {
    NoSlash(name);
    AncestorsOfJoined(job.root, name, a);
  }

  /** The default place is always one. */
  lemma DefaultIsPlaced(job: Job, src: Source, disk: Tree)
    requires EmptyTarget(job, disk) && job.auditOut == DefaultAudit(job.root)
    ensures AuditPlaced(job, src, disk)
  {
    NoSlash(AUDIT);
    Below(Slashed(job.root), AUDIT);
    assert |job.auditOut| > |job.root|;
    forall a | a in Ancestors(job.auditOut) ensures a in Ancestors(job.root) + {job.root} {
      DefaultAncestors(job, AUDIT, a);
    }
  }

  // What may be on disk at any moment of the restore

  predicate Kept(src: Source, rel: string, node: Node) {
    match node
    case Dir => KeptDir(src, rel)
    case Regular(data) => rel != AUDIT && Saved(src, rel) == Some(data)
    case Other(_) => false
  }

  /** A directory above the audit log. */
  predicate AboveAudit(job: Job, src: Source, q: string) {
    Audited(src) && q in Ancestors(job.auditOut)
  }

  predicate Expected(job: Job, src: Source, disk0: Tree, q: string, node: Node) {
    if Audited(src) && q == job.auditOut then node.Regular?
    else if Slashed(job.root) < q then
      Kept(src, q[|Slashed(job.root)|..], node) || (node.Dir? && AboveAudit(job, src, q))
    else
      || (q in disk0 && node == disk0[q])
      || (node.Dir? && (q in Ancestors(job.root) + {job.root} || AboveAudit(job, src, q)))
  }

  /** Every node on disk is one that `may` be where it is. */
  ghost predicate Within(disk: Tree, may: (string, Node) -> bool) {
    forall q | q in disk :: may(q, disk[q])
  }

  /** Only a directory may be at `a`. */
  ghost predicate OnlyDir(may: (string, Node) -> bool, a: string) {
    may(a, Dir) && forall node :: may(a, node) ==> node.Dir?
  }

  lemma MkdirWithin(disk: Tree, may: (string, Node) -> bool, path: string)
    requires Within(disk, may) && forall a | a in Ancestors(path) + {path} :: OnlyDir(may, a)
    ensures MkdirAll(disk, path).Some? && Within(MkdirAll(disk, path).value, may)
  {
  }

  lemma WriteWithin(disk: Tree, may: (string, Node) -> bool, path: string, data: Bytes)
    requires Within(disk, may) && forall a | a in Ancestors(path) :: OnlyDir(may, a)
    requires may(path, Regular(data)) && forall node :: may(path, node) ==> node.Regular?
    ensures WriteFile(disk, path, data).Some? && Within(WriteFile(disk, path, data).value, may)
  {
  }

  lemma WriteChangesOne(disk: Tree, path: string, data: Bytes, q: string)
    requires WriteFile(disk, path, data).Some? && q in disk && q != path
    ensures q in WriteFile(disk, path, data).value && WriteFile(disk, path, data).value[q] == disk[q]
  {
  }

  function May(job: Job, src: Source, disk0: Tree): (string, Node) -> bool {
    (q, node) => Expected(job, src, disk0, q, node)
  }

  ghost predicate Fits(job: Job, src: Source, disk0: Tree, disk: Tree) {
    Within(disk, May(job, src, disk0))
  }

  predicate Untouched(job: Job, src: Source, disk0: Tree, disk: Tree) {
    forall q | q in disk0 && !(Audited(src) && q == job.auditOut) :: q in disk && disk[q] == disk0[q]
  }

  lemma AncestorInTrees(name: string, a: string)
    requires InTrees(name) && a in Ancestors(name)
    ensures InTrees(a) || a == "dolt" || a == "workspaces"
  {
    var i :| 0 < i < |name| && name[i] == '/' && a == name[..i];
    var prefix := if DOLT <= name then DOLT else WORKSPACES;
    var n := |prefix|;
    assert name[..n] == prefix;
    assert forall k | 0 <= k < n - 1 :: name[k] == prefix[k] && prefix[k] != '/';
    if i == n - 1 {
      assert a == prefix[..n - 1];
    } else {
      assert a[..n] == prefix;
    }
  }

  /** Every directory above a tree entry is above the data directory or one of the tree's. */
  lemma NeededDir(job: Job, src: Source, name: string, a: string)
    requires job.root != "" && InTrees(name) && Proper(src.tree, name)
    requires a in Ancestors(Slashed(job.root) + name)
    ensures a in Ancestors(job.root) + {job.root}
         || (Slashed(job.root) < a && KeptDir(src, a[|Slashed(job.root)|..]))
  {
    AncestorsOfJoined(job.root, name, a);
    if Slashed(job.root) < a && a[|Slashed(job.root)|..] in Ancestors(name) {
      AncestorInTrees(name, a[|Slashed(job.root)|..]);
    }
  }

  /** Only a directory can be at `a`. */
  ghost predicate DirOnly(job: Job, src: Source, disk0: Tree, a: string) {
    OnlyDir(May(job, src, disk0), a)
  }

  lemma RootDir(job: Job, src: Source, disk0: Tree, a: string)
    requires EmptyTarget(job, disk0) && AuditPlaced(job, src, disk0) && a in Ancestors(job.root) + {job.root}
    ensures DirOnly(job, src, disk0, a)
  {
    assert |a| <= |job.root|;
  }

  /** An ancestor below a common beginning is an ancestor of the rest. */
  lemma AncestorOfRest(home: string, path: string, a: string)
    requires home < a && a in Ancestors(path)
    ensures home <= path && a[|home|..] in Ancestors(path[|home|..])
  {
    var i :| 0 < i < |path| && path[i] == '/' && a == path[..i];
    var rest := path[|home|..];
    assert rest[i - |home|] == '/' && a[|home|..] == rest[..i - |home|];
  }

  lemma AuditDir(job: Job, src: Source, disk0: Tree, a: string)
    requires EmptyTarget(job, disk0) && AuditPlaced(job, src, disk0) && AboveAudit(job, src, a)
    ensures DirOnly(job, src, disk0, a)
  {
    assert |a| < |job.auditOut|;
    if Slashed(job.root) < a {
      AncestorOfRest(Slashed(job.root), job.auditOut, a);
    }
  }

  lemma KeptDirIs(job: Job, src: Source, disk0: Tree, rel: string)
    requires EmptyTarget(job, disk0) && AuditPlaced(job, src, disk0) && KeptDir(src, rel)
    ensures DirOnly(job, src, disk0, Slashed(job.root) + rel)
  {
    NoSlash(AUDIT);
    NoSlash(VAULT);
    Below(Slashed(job.root), rel);
    assert rel != "" by { assert DOLT[0] == 'd' && WORKSPACES[0] == 'w'; }
  }

  lemma TreeDirAbove(job: Job, src: Source, disk0: Tree, name: string, a: string)
    requires EmptyTarget(job, disk0) && AuditPlaced(job, src, disk0) && InTrees(name) && Proper(src.tree, name)
    requires a in Ancestors(Slashed(job.root) + name)
    ensures DirOnly(job, src, disk0, a)
  {
    NeededDir(job, src, name, a);
    if a in Ancestors(job.root) + {job.root} {
      RootDir(job, src, disk0, a);
    } else {
      var rel := a[|Slashed(job.root)|..];
      KeptDirIs(job, src, disk0, rel);
      assert Slashed(job.root) + rel == a;
    }
  }

  /** Every directory above an extracted file or directory can only be a directory. */
  lemma DirsAbove(job: Job, src: Source, disk0: Tree, name: string)
    requires EmptyTarget(job, disk0) && AuditPlaced(job, src, disk0) && WellFormed(src.tree)
    requires Saved(src, name).Some? || SavedDir(src, name)
    ensures forall a | a in Ancestors(Dest(job, name)) :: DirOnly(job, src, disk0, a)
  {
    forall a | a in Ancestors(Dest(job, name)) ensures DirOnly(job, src, disk0, a) {
      if name == AUDIT {
        NoSlash(AUDIT);
        AuditDir(job, src, disk0, a);
      } else if name == VAULT {
        DefaultAncestors(job, name, a);
        RootDir(job, src, disk0, a);
      } else {
        TreeDirAbove(job, src, disk0, name, a);
      }
    }
  }

  /** Only the saved bytes' file can be where a saved name is extracted to. */
  lemma SavedDest(job: Job, src: Source, disk0: Tree, name: string)
    requires AuditPlaced(job, src, disk0) && WellFormed(src.tree) && Saved(src, name).Some?
    ensures Expected(job, src, disk0, Dest(job, name), Regular(Saved(src, name).value))
    ensures forall node :: Expected(job, src, disk0, Dest(job, name), node) ==> node.Regular?
  {
    if name != AUDIT {
      NoSlash(VAULT);
      Below(Slashed(job.root), name);
      assert name != "" by { assert name in src.tree; }
      if AboveAudit(job, src, Dest(job, name)) {
        AncestorOfRest(Slashed(job.root), job.auditOut, Dest(job, name));
      }
    }
  }

  /** Two saved names are extracted to two places. */
  lemma SavedDestInjective(job: Job, src: Source, disk0: Tree, a: string, b: string)
    requires AuditPlaced(job, src, disk0) && Saved(src, a).Some? && Saved(src, b).Some? && a != b
    ensures Dest(job, a) != Dest(job, b)
  {
    Below(Slashed(job.root), a);
    Below(Slashed(job.root), b);
  }

  /** Extracting a saved file never fails, and keeps the disk within what is expected. */
  lemma WriteFits(job: Job, src: Source, disk0: Tree, disk: Tree, name: string)
    requires Setting(job, src, disk0) && Fits(job, src, disk0, disk) && Saved(src, name).Some?
    ensures WriteFile(disk, Dest(job, name), Saved(src, name).value).Some?
    ensures Fits(job, src, disk0, WriteFile(disk, Dest(job, name), Saved(src, name).value).value)
  {
    DirsAbove(job, src, disk0, name);
    SavedDest(job, src, disk0, name);
    WriteWithin(disk, May(job, src, disk0), Dest(job, name), Saved(src, name).value);
  }

  lemma WriteUntouched(job: Job, src: Source, disk0: Tree, disk: Tree, name: string)
    requires Setting(job, src, disk0) && Untouched(job, src, disk0, disk) && Saved(src, name).Some?
    requires WriteFile(disk, Dest(job, name), Saved(src, name).value).Some?
    ensures Untouched(job, src, disk0, WriteFile(disk, Dest(job, name), Saved(src, name).value).value)
  {
    if name != AUDIT {
      Below(Slashed(job.root), name);
      assert name != "" by { assert name in src.tree; }
      assert Slashed(job.root) < Dest(job, name);
    }
    forall q | q in disk && q != Dest(job, name)
      ensures var after := WriteFile(disk, Dest(job, name), Saved(src, name).value).value;
                  q in after && after[q] == disk[q]
    {
      WriteChangesOne(disk, Dest(job, name), Saved(src, name).value, q);
    }
  }

  lemma SavedDirDest(job: Job, src: Source, path: string)
    requires SavedDir(src, path)
    ensures Dest(job, path) == Slashed(job.root) + path && KeptDir(src, path)
  {
    NoSlash(AUDIT);
  }

  lemma DirFits(job: Job, src: Source, disk0: Tree, disk: Tree, path: string)
    requires Setting(job, src, disk0) && Fits(job, src, disk0, disk) && SavedDir(src, path)
    ensures MkdirAll(disk, Dest(job, path)).Some? && Fits(job, src, disk0, MkdirAll(disk, Dest(job, path)).value)
  {
    var dest := Dest(job, path);
    forall a | a in Ancestors(dest) + {dest} ensures DirOnly(job, src, disk0, a) {
      if a == dest {
        SavedDirDest(job, src, path);
        KeptDirIs(job, src, disk0, path);
      } else {
        DirsAbove(job, src, disk0, path);
      }
    }
    MkdirWithin(disk, May(job, src, disk0), dest);
  }

  lemma DirUntouched(job: Job, src: Source, disk0: Tree, disk: Tree, path: string)
    requires Untouched(job, src, disk0, disk) && MkdirAll(disk, path).Some?
    ensures Untouched(job, src, disk0, MkdirAll(disk, path).value)
  {
    forall q | q in disk ensures q in MkdirAll(disk, path).value && MkdirAll(disk, path).value[q] == disk[q] {
      MkdirKeepsFiles(disk, path, q);
    }
  }

  // The extraction loop over a backup's entries

  /** `name` was extracted: on disk with the saved bytes. */
  predicate Back(job: Job, src: Source, disk: Tree, name: string) {
    Saved(src, name).Some? && Dest(job, name) in disk && disk[Dest(job, name)] == Regular(Saved(src, name).value)
  }

  predicate AllBack(job: Job, src: Source, disk: Tree, sums: map<string, string>) {
    forall name | name in sums :: Back(job, src, disk, name)
  }

  predicate DirsBack(job: Job, src: Source, disk: Tree, done: seq<Entry>) {
    forall path | path in src.tree && SavedDir(src, path) && EntryOf(src.tree, path) in done ::
      Slashed(job.root) + path in disk
  }

  ghost predicate Good(job: Job, src: Source, disk0: Tree, st: Progress, done: seq<Entry>) {
    && st.failed.None? && st.manifest.None? && st.sums == SumsOf(job.codec, done)
    && Fits(job, src, disk0, st.disk) && Untouched(job, src, disk0, st.disk)
    && AllBack(job, src, st.disk, st.sums) && DirsBack(job, src, st.disk, done)
  }

  lemma {:induction false} SumsOfHas(codec: Codec, entries: seq<Entry>, e: Entry)
    requires e in entries && !e.isDir
    ensures e.name in SumsOf(codec, entries)
  {
    var n := |entries| - 1;
    if e != entries[n] {
      SumsOfHas(codec, entries[..n], e);
    }
  }

  lemma {:induction false} SumsOfFaithful(src: Source, codec: Codec, entries: seq<Entry>)
    requires forall e | e in entries :: Faithful(src, e)
    ensures forall name | name in SumsOf(codec, entries) ::
              Saved(src, name).Some? && SumsOf(codec, entries)[name] == codec.hash(Saved(src, name).value)
  {
    if entries != [] {
      var n := |entries| - 1;
      SumsOfFaithful(src, codec, entries[..n]);
      assert Faithful(src, entries[n]);
    }
  }

  /** A tree path without dots is extracted as data. */
  lemma TreeCase(path: string)
    requires InTrees(path) && !HasDots(path)
    ensures CaseOf(path).Data? && path != AUDIT && path != VAULT
  {
    assert MANIFEST[0] == 'm' && AUDIT[0] == 'a' && VAULT[0] == 'v';
    assert DOLT[0] == 'd' && WORKSPACES[0] == 'w' && DUMPS[0] == 'd' && DOLT[4] == '/' && DUMPS[4] == '-';
  }

  lemma VaultCase()
    ensures CaseOf(VAULT).Data? && VAULT != AUDIT
  {
    assert MANIFEST[0] == 'm' && AUDIT[0] == 'a' && VAULT[0] == 'v' && DUMPS[0] == 'd';
    assert forall i :: 0 <= i < |VAULT| - 1 ==> VAULT[i] != '.' || VAULT[i + 1] == 'd';
  }

  lemma SavedName(src: Source, name: string)
    requires WellFormed(src.tree) && Saved(src, name).Some?
    ensures Clean(name) == name && (!HasDots(name) ==> Extractable(name))
  {
    if name == AUDIT {
      FixedCases();
    } else {
      assert Proper(src.tree, name);
      if name == VAULT {
        VaultCase();
      } else if !HasDots(name) {
        TreeCase(name);
      }
    }
  }

  lemma SavedDirName(src: Source, path: string)
    requires WellFormed(src.tree) && SavedDir(src, path)
    ensures Clean(path + "/") == path
  {
    assert Proper(src.tree, path);
    CleanTrailingSlash(path);
  }

  lemma AllBackNext(job: Job, src: Source, disk0: Tree, st: Progress, name: string)
    requires AuditPlaced(job, src, disk0) && AllBack(job, src, st.disk, st.sums) && Saved(src, name).Some?
    requires WriteFile(st.disk, Dest(job, name), Saved(src, name).value).Some?
    ensures var next := Extracted(job, st, name, Saved(src, name).value);
            AllBack(job, src, next.disk, next.sums)
  {
    var data := Saved(src, name).value;
    var next := Extracted(job, st, name, data);
    forall other | other in next.sums ensures Back(job, src, next.disk, other) {
      if other != name {
        assert Back(job, src, st.disk, other);
        SavedDestInjective(job, src, disk0, other, name);
        WriteKeepsFiles(st.disk, Dest(job, name), data, Dest(job, other));
      }
    }
  }

  lemma DirsBackFile(job: Job, src: Source, disk: Tree, done: seq<Entry>, dest: string, data: Bytes, e: Entry)
    requires DirsBack(job, src, disk, done) && !e.isDir && WriteFile(disk, dest, data).Some?
    ensures DirsBack(job, src, WriteFile(disk, dest, data).value, done + [e])
  {
  }

  lemma FileStep(job: Job, src: Source, disk0: Tree, st: Progress, done: seq<Entry>, name: string, e: Entry)
    requires Setting(job, src, disk0) && Good(job, src, disk0, st, done)
    requires Saved(src, name).Some? && e == Entry(name, false, Saved(src, name).value)
    ensures Good(job, src, disk0, Extracted(job, st, name, e.body), done + [e])
  {
    WriteFits(job, src, disk0, st.disk, name);
    WriteUntouched(job, src, disk0, st.disk, name);
    SumsOfNext(job.codec, done, e);
    AllBackNext(job, src, disk0, st, name);
    DirsBackFile(job, src, st.disk, done, Dest(job, name), e.body, e);
  }

  lemma DirKeepsBack(job: Job, src: Source, disk: Tree, sums: map<string, string>, path: string)
    requires AllBack(job, src, disk, sums) && MkdirAll(disk, path).Some?
    ensures AllBack(job, src, MkdirAll(disk, path).value, sums)
  {
    forall name | name in sums ensures Back(job, src, MkdirAll(disk, path).value, name) {
      assert Back(job, src, disk, name);
      MkdirKeepsFiles(disk, path, Dest(job, name));
    }
  }

  lemma DirsBackNext(job: Job, src: Source, disk: Tree, done: seq<Entry>, path: string, e: Entry)
    requires DirsBack(job, src, disk, done) && e.isDir && e.name == path + "/"
    requires MkdirAll(disk, Slashed(job.root) + path).Some?
    ensures DirsBack(job, src, MkdirAll(disk, Slashed(job.root) + path).value, done + [e])
  {
    forall other | other in src.tree && SavedDir(src, other) && EntryOf(src.tree, other) in done + [e]
      ensures Slashed(job.root) + other in MkdirAll(disk, Slashed(job.root) + path).value
    {
      if EntryOf(src.tree, other) == e {
        assert (other + "/")[..|other|] == other && (path + "/")[..|path|] == path;
      }
    }
  }

  lemma DirStep(job: Job, src: Source, disk0: Tree, st: Progress, done: seq<Entry>, path: string, e: Entry)
    requires Setting(job, src, disk0) && Good(job, src, disk0, st, done)
    requires SavedDir(src, path) && e.isDir && e.name == path + "/"
    ensures Good(job, src, disk0, Made(job, st, path), done + [e])
  {
    SavedDirDest(job, src, path);
    DirFits(job, src, disk0, st.disk, path);
    DirUntouched(job, src, disk0, st.disk, Dest(job, path));
    SumsOfNext(job.codec, done, e);
    DirKeepsBack(job, src, st.disk, st.sums, Dest(job, path));
    DirsBackNext(job, src, st.disk, done, path, e);
  }

  lemma NamedDir(job: Job, st: Progress, path: string, e: Entry)
    requires st.failed.None? && e.isDir && Clean(e.name) == path && CaseOf(path).Data?
    ensures ExtractOne(job, st, e) == Made(job, st, path)
  {
    NamedEntry(job, st, e, Data, path);
  }

  lemma FaithfulStep(job: Job, src: Source, disk0: Tree, st: Progress, done: seq<Entry>, e: Entry)
    requires Setting(job, src, disk0) && Good(job, src, disk0, st, done)
    requires Faithful(src, e) && !HasDots(Clean(e.name))
    ensures Good(job, src, disk0, ExtractOne(job, st, e), done + [e])
  {
    if e.isDir {
      var path :| SavedDir(src, path) && e.name == path + "/";
      SavedDirName(src, path);
      TreeCase(path);
      NamedDir(job, st, path, e);
      DirStep(job, src, disk0, st, done, path, e);
    } else {
      SavedName(src, e.name);
      NamedFile(job, st, e.name, e.body);
      assert e == Entry(e.name, false, e.body);
      FileStep(job, src, disk0, st, done, e.name, e);
    }
  }

  lemma InitLast(body: seq<Entry>)
    requires body != []
    ensures body == body[..|body| - 1] + [body[|body| - 1]] && body[|body| - 1] in body
  {
  }

  lemma {:induction false} FaithfulRun(job: Job, src: Source, disk0: Tree, st0: Progress, body: seq<Entry>)
    returns (end: Progress)
    requires Setting(job, src, disk0) && Good(job, src, disk0, st0, [])
    requires forall e | e in body :: Faithful(src, e) && !HasDots(Clean(e.name))
    ensures end == ExtractAll(job, st0, body) && Good(job, src, disk0, end, body)
  {
    if body == [] {
      end := st0;
    } else {
      var init, e := body[..|body| - 1], body[|body| - 1];
      InitLast(body);
      var mid := FaithfulRun(job, src, disk0, st0, init);
      FaithfulStep(job, src, disk0, mid, init, e);
      end := ExtractOne(job, mid, e);
    }
  }

  lemma EmptyFits(job: Job, src: Source, disk0: Tree)
    requires EmptyTarget(job, disk0) && AuditPlaced(job, src, disk0)
    ensures Fits(job, src, disk0, disk0)
  {
  }

  lemma BeginMakes(job: Job, disk0: Tree)
    requires EmptyTarget(job, disk0)
    ensures MkdirAll(disk0, job.root).Some?
    ensures Begin(job, disk0) == Progress(MkdirAll(disk0, job.root).value, map[], None, None)
  {
  }

  lemma BeginGood(job: Job, src: Source, disk0: Tree)
    requires Setting(job, src, disk0)
    ensures Good(job, src, disk0, Begin(job, disk0), [])
  {
    BeginMakes(job, disk0);
    EmptyFits(job, src, disk0);
    forall a | a in Ancestors(job.root) + {job.root} ensures DirOnly(job, src, disk0, a) {
      RootDir(job, src, disk0, a);
    }
    MkdirWithin(disk0, May(job, src, disk0), job.root);
    DirUntouched(job, src, disk0, disk0, job.root);
  }

  lemma DotsFailOne(job: Job, st: Progress, e: Entry)
    requires HasDots(Clean(e.name))
    ensures ExtractOne(job, st, e).failed.Some?
  {
    if st.failed.None? {
      NamedEntry(job, st, e, Escaping, Clean(e.name));
    }
  }

  lemma {:induction false} DotsFail(job: Job, st: Progress, entries: seq<Entry>, k: nat)
    requires k < |entries| && HasDots(Clean(entries[k].name))
    ensures ExtractAll(job, st, entries).failed.Some?
  {
    assert entries[..k + 1][..k] == entries[..k];
    DotsFailOne(job, ExtractAll(job, st, entries[..k]), entries[k]);
    FailedPrefix(job, st, entries, k + 1);
  }

  /** The files of the source are exactly the files under the restored data directory (and the
      audit log at its place), its directories are back, and nothing else on disk changed. */
  ghost predicate Reproduced(job: Job, src: Source, disk0: Tree, disk: Tree) {
    && (forall name | name in SavedNames(src) ::
          Dest(job, name) in disk && disk[Dest(job, name)] == Regular(Saved(src, name).value))
    && (forall q | q in disk && Slashed(job.root) < q && !disk[q].Dir? ::
          exists name :: name in SavedNames(src) && q == Dest(job, name))
    && (forall path | path in src.tree && SavedDir(src, path) ::
          Slashed(job.root) + path in disk && disk[Slashed(job.root) + path].Dir?)
    && Untouched(job, src, disk0, disk)
  }

  lemma ExtraFiles(job: Job, src: Source, disk0: Tree, disk: Tree, q: string)
    requires EmptyTarget(job, disk0) && Fits(job, src, disk0, disk)
    requires q in disk && Slashed(job.root) < q && !disk[q].Dir?
    ensures exists name :: name in SavedNames(src) && q == Dest(job, name)
  {
    var rel := q[|Slashed(job.root)|..];
    assert q == Slashed(job.root) + rel;
    assert May(job, src, disk0)(q, disk[q]);
    if Audited(src) && q == job.auditOut {
      assert AUDIT in SavedNames(src) && q == Dest(job, AUDIT);
    } else {
      assert rel in SavedNames(src) && q == Dest(job, rel);
    }
  }

  lemma GoodIsReproduced(job: Job, src: Source, disk0: Tree, st: Progress, body: seq<Entry>)
    requires Setting(job, src, disk0) && Good(job, src, disk0, st, body)
    requires forall name | name in SavedNames(src) :: Entry(name, false, Saved(src, name).value) in body
    requires forall path | path in src.tree && SavedDir(src, path) :: EntryOf(src.tree, path) in body
    ensures Reproduced(job, src, disk0, st.disk)
  {
    forall name | name in SavedNames(src)
      ensures Dest(job, name) in st.disk && st.disk[Dest(job, name)] == Regular(Saved(src, name).value)
    {
      SumsOfHas(job.codec, body, Entry(name, false, Saved(src, name).value));
      assert Back(job, src, st.disk, name);
    }
    forall q | q in st.disk && Slashed(job.root) < q && !st.disk[q].Dir?
      ensures exists name :: name in SavedNames(src) && q == Dest(job, name)
    {
      ExtraFiles(job, src, disk0, st.disk, q);
    }
    forall path | path in src.tree && SavedDir(src, path)
      ensures Slashed(job.root) + path in st.disk && st.disk[Slashed(job.root) + path].Dir?
    {
      KeptDirIs(job, src, disk0, path);
    }
  }

  lemma BadNameInBody(src: Source, body: seq<Entry>) returns (k: nat)
    requires WellFormed(src.tree) && !NoDots(src)
    requires forall name | name in SavedNames(src) :: Entry(name, false, Saved(src, name).value) in body
    requires forall path | path in src.tree && SavedDir(src, path) :: EntryOf(src.tree, path) in body
    ensures k < |body| && HasDots(Clean(body[k].name))
  {
    var path :| path in src.tree.Keys + {AUDIT, VAULT} && (Saved(src, path).Some? || SavedDir(src, path))
            && HasDots(path);
    if Saved(src, path).Some? {
      SavedName(src, path);
      assert path in SavedNames(src);
      k :| k < |body| && body[k] == Entry(path, false, Saved(src, path).value);
    } else {
      SavedDirName(src, path);
      k :| k < |body| && body[k] == EntryOf(src.tree, path);
    }
  }

  lemma NoDotsInBody(src: Source, body: seq<Entry>)
    requires WellFormed(src.tree) && NoDots(src) && forall e | e in body :: Faithful(src, e)
    ensures forall e | e in body :: !HasDots(Clean(e.name))
  {
    forall e | e in body ensures !HasDots(Clean(e.name)) {
      if e.isDir {
        var path :| SavedDir(src, path) && e.name == path + "/";
        SavedDirName(src, path);
      } else {
        SavedName(src, e.name);
        if e.name != AUDIT { assert e.name in src.tree.Keys + {AUDIT, VAULT}; }
      }
    }
  }

  // The manifest at the end

  /** The checksums of a packed body are those of the saved files. */
  ghost predicate SumsOfSaved(src: Source, codec: Codec, sums: map<string, string>) {
    sums.Keys == SavedNames(src) && forall name | name in sums :: sums[name] == codec.hash(Saved(src, name).value)
  }

  lemma BodySums(src: Source, codec: Codec, body: seq<Entry>)
    requires forall e | e in body :: Faithful(src, e)
    requires forall name | name in SavedNames(src) :: Entry(name, false, Saved(src, name).value) in body
    ensures SumsOfSaved(src, codec, SumsOf(codec, body)) && (codec.Lawful() ==> AsciiSums(SumsOf(codec, body)))
  {
    var sums := SumsOf(codec, body);
    SumsOfFaithful(src, codec, body);
    forall name | name in SavedNames(src) ensures name in sums {
      SumsOfHas(codec, body, Entry(name, false, Saved(src, name).value));
    }
    forall name | name in sums ensures name in SavedNames(src) {
      assert name in src.tree.Keys + {AUDIT, VAULT};
    }
  }

  lemma CarriedAt(codec: Codec, m: map<string, string>, name: string)
    requires codec.Lawful() && name in m
    ensures codec.carry(name) in codec.Carried(m) && codec.keeper(m.Keys, codec.carry(name)) in m
    ensures codec.Carried(m)[codec.carry(name)] == m[codec.keeper(m.Keys, codec.carry(name))]
  {
    assert name in m.Keys && codec.keeper(m.Keys, codec.carry(name)) in m.Keys;
  }

  lemma MatchIffLegible(src: Source, codec: Codec, sums: map<string, string>)
    requires codec.Lawful() && SumsOfSaved(src, codec, sums)
    ensures AllMatch(sums, codec.Carried(sums)) <==> Legible(src, codec)
  {
    forall name | name in sums
      ensures CarriedWell(src, codec, name)
         <==> codec.carry(name) in sums && sums[codec.carry(name)] == codec.Carried(sums)[codec.carry(name)]
    {
      CarriedAt(codec, sums, name);
    }
    if AllMatch(sums, codec.Carried(sums)) {
      forall name | name in SavedNames(src) ensures CarriedWell(src, codec, name) {
        CarriedAt(codec, sums, name);
      }
    } else {
      var bad :| bad in codec.Carried(sums) && !(bad in sums && sums[bad] == codec.Carried(sums)[bad]);
      var name :| name in sums && codec.carry(name) == bad;
      assert !CarriedWell(src, codec, name);
    }
  }

  lemma ManifestStep(job: Job, st: Progress, e: Entry, sums: map<string, string>)
    requires st.failed.None? && job.codec.Lawful() && AsciiSums(sums)
    requires e == Entry(MANIFEST, false, job.codec.encode(sums))
    ensures ExtractOne(job, st, e) == st.(manifest := Some(job.codec.Carried(sums)))
  {
    FixedCases();
    NamedManifest(job, st, MANIFEST, sums);
  }

  /** Without dots in the names the loop gets to the manifest, with everything back. */
  lemma BodyRestored(job: Job, src: Source, disk0: Tree, body: seq<Entry>) returns (end: Progress)
    requires Setting(job, src, disk0) && NoDots(src) && forall e | e in body :: Faithful(src, e)
    requires forall name | name in SavedNames(src) :: Entry(name, false, Saved(src, name).value) in body
    requires forall path | path in src.tree && SavedDir(src, path) :: EntryOf(src.tree, path) in body
    ensures end == ExtractAll(job, Begin(job, disk0), body) && end.failed.None?
    ensures end.sums == SumsOf(job.codec, body) && Reproduced(job, src, disk0, end.disk)
  {
    NoDotsInBody(src, body);
    BeginGood(job, src, disk0);
    end := FaithfulRun(job, src, disk0, Begin(job, disk0), body);
    GoodIsReproduced(job, src, disk0, end, body);
  }

  lemma PackedRestored(job: Job, src: Source, disk0: Tree, archive: seq<Entry>)
    requires Setting(job, src, disk0) && Packs(src, job.codec, archive) && NoDots(src)
    ensures RestoreAll(job, disk0, archive).failed.None? <==> Legible(src, job.codec)
    ensures Reproduced(job, src, disk0, RestoreAll(job, disk0, archive).disk)
  {
    var n := |archive| - 1;
    var body := archive[..n];
    var end := BodyRestored(job, src, disk0, body);
    BodySums(src, job.codec, body);
    ManifestStep(job, end, archive[n], SumsOf(job.codec, body));
    MatchIffLegible(src, job.codec, SumsOf(job.codec, body));
    var read := job.codec.Carried(SumsOf(job.codec, body));
    FinishDecides(end.(manifest := Some(read)), read);
  }

  lemma PackedFails(job: Job, src: Source, disk0: Tree, archive: seq<Entry>)
    requires WellFormed(src.tree) && Packs(src, job.codec, archive) && !NoDots(src)
    ensures RestoreAll(job, disk0, archive).failed.Some?
  {
    var body := archive[..|archive| - 1];
    var k := BadNameInBody(src, body);
    assert archive[k] == body[k];
    DotsFail(job, Begin(job, disk0), archive, k);
  }

  /** A backup restored into an empty data directory succeeds exactly when no saved name contains
      ".." and the manifest's text can carry the names. Without "..", every saved file is
      reproduced and no other, even when the manifest then fails the restore. */
  lemma RestoreUndoesBackup(job: Job, src: Source, disk0: Tree, archive: seq<Entry>)
    requires Setting(job, src, disk0) && Packs(src, job.codec, archive)
    ensures RestoreAll(job, disk0, archive).failed.None? <==> Portable(src, job.codec)
    ensures NoDots(src) ==> Reproduced(job, src, disk0, RestoreAll(job, disk0, archive).disk)
  {
    if NoDots(src) {
      PackedRestored(job, src, disk0, archive);
    } else {
      PackedFails(job, src, disk0, archive);
    }
  }

  /** The same of a command line, whatever its flags and working directory. */
  lemma FlagsRestoreUndoesBackup(flags: Flags, codec: Codec, src: Source, disk0: Tree, archive: seq<Entry>)
    requires IsAbs(flags.cwd) && flags.dataDir != "" && codec.Lawful()
    requires WellFormed(src.tree) && Packs(src, codec, archive)
    requires var job := JobOf(flags, codec);
             !Occupied(disk0, job.root) && !Blocked(disk0, Ancestors(job.root) + {job.root})
    requires flags.auditLog == "" || AuditPlaced(JobOf(flags, codec), src, disk0)
    ensures var job := JobOf(flags, codec);
            && (RestoreAll(job, disk0, archive).failed.None? <==> Portable(src, codec))
            && (NoDots(src) ==> Reproduced(job, src, disk0, RestoreAll(job, disk0, archive).disk))
  {
    var job := JobOf(flags, codec);
    RootIsAbs(flags, codec);
    if flags.auditLog == "" {
      NoAuditFlagIsDefault(flags, codec);
      DefaultIsPlaced(job, src, disk0);
    }
    RestoreUndoesBackup(job, src, disk0, archive);
  }

  // Names that cannot be restored

  /** A data directory with one file, directly in dolt/. */
  function OneFile(dolt: string, file: string, data: Bytes): Source {
    Source(map[dolt := Dir, dolt + "/" + file := Regular(data)], None)
  }

  lemma OneFileIsWellFormed(dolt: string, file: string, data: Bytes)
    requires Plain(dolt) && Plain(file)
    ensures WellFormed(OneFile(dolt, file, data).tree)
  {
    var tree := OneFile(dolt, file, data).tree;
    var path := dolt + "/" + file;
    CleanFixesPlain(dolt);
    CleanFixesPlainPaths([dolt, file]);
    assert Join([dolt, file], '/') == path;
    assert forall i :: 0 <= i < |dolt| ==> dolt[i] != '/';
    assert forall i :: 0 <= i < |file| ==> file[i] != '/';
    forall a | a in Ancestors(path) ensures a == dolt {
      AncestorsOfJoined(dolt, file, a);
    }
  }

  lemma OneFileSaved(dolt: string, file: string, data: Bytes)
    requires dolt == "dolt"
    ensures Plain(dolt) && SavedNames(OneFile(dolt, file, data)) == {dolt + "/" + file}
    ensures Saved(OneFile(dolt, file, data), dolt + "/" + file) == Some(data)
    ensures !Audited(OneFile(dolt, file, data))
  {
    var src := OneFile(dolt, file, data);
    var path := dolt + "/" + file;
    assert forall i :: 0 <= i < |dolt| ==> dolt[i] != '/';
    assert path[..5] == DOLT && path[0] == 'd' && AUDIT[0] == 'a' && VAULT[0] == 'v';
    assert !InTrees(dolt) by { assert |DOLT| == 5 && |WORKSPACES| == 11; }
    assert Saved(src, path) == Some(data);
    assert path in src.tree.Keys + {AUDIT, VAULT};
  }

  lemma OneFileIsNotPortable(src: Source, codec: Codec, path: string)
    requires Saved(src, path).Some? && SavedNames(src) == {path} && path in src.tree
    requires HasDots(path) || codec.carry(path) != path
    ensures !Portable(src, codec)
  {
    if HasDots(path) {
      assert path in src.tree.Keys + {AUDIT, VAULT};
    } else {
      assert path in SavedNames(src) && !CarriedWell(src, codec, path);
    }
  }

  lemma OneFileFails(job: Job, disk0: Tree, archive: seq<Entry>, dolt: string, file: string, data: Bytes)
    requires job.codec.Lawful() && EmptyTarget(job, disk0) && dolt == "dolt" && Plain(file)
    requires Packs(OneFile(dolt, file, data), job.codec, archive)
    requires HasDots(dolt + "/" + file) || job.codec.carry(dolt + "/" + file) != dolt + "/" + file
    ensures RestoreAll(job, disk0, archive).failed.Some?
  {
    var src := OneFile(dolt, file, data);
    OneFileSaved(dolt, file, data);
    OneFileIsWellFormed(dolt, file, data);
    OneFileIsNotPortable(src, job.codec, dolt + "/" + file);
    RestoreUndoesBackup(job, src, disk0, archive);
  }

  const DOLT_DIR := "dolt"
  const DOTTED := "a..b"

  /** A data directory holding the one file dolt/a..b: it is backed up without complaint, and no
      restore of that backup succeeds. */
  lemma DottedNameCannotBeRestored(job: Job, disk0: Tree, archive: seq<Entry>, data: Bytes)
    requires job.codec.Lawful() && EmptyTarget(job, disk0)
    requires Packs(OneFile(DOLT_DIR, DOTTED, data), job.codec, archive)
    ensures RestoreAll(job, disk0, archive).failed.Some?
  {
    DottedIsPlain(DOLT_DIR, DOTTED);
    OneFileFails(job, disk0, archive, DOLT_DIR, DOTTED, data);
  }

  lemma DottedIsPlain(dolt: string, file: string)
    requires file == "a..b"
    ensures Plain(file) && HasDots(dolt + "/" + file)
  {
    var path := dolt + "/" + file;
    assert path[|dolt| + 2] == file[1] == '.' && path[|dolt| + 3] == file[2] == '.';
    assert forall i :: 0 <= i < |file| ==> file[i] != '/';
  }

  /** So is one whose file name is not valid UTF-8: the manifest spells it differently. */
  lemma IllegibleNameCannotBeRestored(job: Job, disk0: Tree, archive: seq<Entry>, file: string, data: Bytes)
    requires job.codec.Lawful() && EmptyTarget(job, disk0) && Plain(file)
    requires job.codec.carry(DOLT_DIR + "/" + file) != DOLT_DIR + "/" + file
    requires Packs(OneFile(DOLT_DIR, file, data), job.codec, archive)
    ensures RestoreAll(job, disk0, archive).failed.Some?
  {
    OneFileFails(job, disk0, archive, DOLT_DIR, file, data);
  }
}
