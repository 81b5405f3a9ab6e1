/** internal/cli/admin_backup.go, the restore half: one loop over the archive's entries, then
    the manifest check. */
module Restore {
  import opened Outcomes
  import opened Paths
  import opened Backup

  datatype Failure = NotEmpty | WriteFailed | Escapes | BadManifest | NoManifest | Mismatch

  /** The command line, and the working directory it is given in. An empty `auditLog` stands for
      the default. */
  datatype Flags = Flags(cwd: string, dataDir: string, auditLog: string, force: bool)

  /** Where the flags lead: `root` and `auditOut` are the paths the system resolves them to. */
  datatype Job = Job(root: string, auditOut: string, force: bool, codec: Codec)

  function AuditFlag(flags: Flags): string {
    if flags.auditLog == "" then JoinPath(flags.dataDir, AUDIT) else flags.auditLog
  }

  function JobOf(flags: Flags, codec: Codec): Job {
    Job(Resolve(flags.cwd, flags.dataDir), Resolve(flags.cwd, AuditFlag(flags)), flags.force, codec)
  }

  datatype Progress = Progress(
    disk: Tree, sums: map<string, string>, manifest: Option<map<string, string>>, failed: Option<Failure>)

  /** Which case of the loop's switch a cleaned entry name falls into. */
  datatype Case = Escaping | Manifest | Audit | Dump | Data | Unknown

  function CaseOf(clean: string): Case {
    if HasDots(clean) then Escaping
    else if clean == MANIFEST then Manifest
    else if clean == AUDIT then Audit
    else if DUMPS <= clean then Dump
    else if DOLT <= clean || WORKSPACES <= clean || clean == VAULT then Data
    else Unknown
  }

  /** The audit destination when no flag names one. */
  function DefaultAudit(root: string): string {
    Slashed(root) + AUDIT
  }

  function Dest(job: Job, name: string): string {
    if name == AUDIT then job.auditOut else Slashed(job.root) + name
  }

  /** Some path of `dirs` is taken by something that is not a directory. */
  predicate Blocked(disk: Tree, dirs: set<string>) {
    exists a | a in dirs :: a in disk && !disk[a].Dir?
  }

  function WithDirs(disk: Tree, dirs: set<string>): Tree {
    disk + map a | a in dirs :: Dir
  }

  /** os.MkdirAll. */
  function MkdirAll(disk: Tree, path: string): Option<Tree> {
    var dirs := Ancestors(path) + {path};
    if Blocked(disk, dirs) then None else Some(WithDirs(disk, dirs))
  }

  /** The file half of writeFromTar: create the directories above, then the file. */
  function WriteFile(disk: Tree, path: string, data: Bytes): Option<Tree> {
    var dirs := Ancestors(path);
    if Blocked(disk, dirs) || (path in disk && !disk[path].Regular?) then None
    else Some(WithDirs(disk, dirs)[path := Regular(data)])
  }

  function Fail(st: Progress, why: Failure): Progress {
    st.(failed := Some(why))
  }

  function Extracted(job: Job, st: Progress, name: string, data: Bytes): Progress {
    match WriteFile(st.disk, Dest(job, name), data)
    case None => Fail(st, WriteFailed)
    case Some(disk) => st.(disk := disk, sums := st.sums[name := job.codec.hash(data)])
  }

  function Made(job: Job, st: Progress, name: string): Progress {
    match MkdirAll(st.disk, Dest(job, name))
    case None => Fail(st, WriteFailed)
    case Some(disk) => st.(disk := disk)
  }

  function Decoded(job: Job, st: Progress, body: Bytes): Progress {
    match job.codec.decode(body)
    case None => Fail(st, BadManifest)
    case Some(m) => st.(manifest := Some(m))
  }

  /** One turn of the extraction loop, for an entry whose cleaned name is `clean`. */
  function ExtractCase(job: Job, st: Progress, which: Case, clean: string, isDir: bool, body: Bytes): Progress {
    match which
    case Escaping => Fail(st, Escapes)
    case Manifest => Decoded(job, st, body)
    case Audit => Extracted(job, st, clean, body)
    case Dump => Extracted(job, st, clean, body)
    case Data => if isDir then Made(job, st, clean) else Extracted(job, st, clean, body)
    case Unknown => st
  }

  function ExtractOne(job: Job, st: Progress, e: Entry): Progress {
    if st.failed.Some? then st
    else ExtractCase(job, st, CaseOf(Clean(e.name)), Clean(e.name), e.isDir, e.body)
  }

  function ExtractAll(job: Job, st: Progress, entries: seq<Entry>): Progress {
    if entries == [] then st else
      ExtractOne(job, ExtractAll(job, st, entries[..|entries| - 1]), entries[|entries| - 1])
  }

  predicate AllMatch(sums: map<string, string>, manifest: map<string, string>) {
    forall name | name in manifest :: name in sums && sums[name] == manifest[name]
  }

  predicate Occupied(disk: Tree, root: string) {
    exists q | q in disk :: Slashed(root) < q
  }

  function Begin(job: Job, disk: Tree): Progress {
    var st := Progress(disk, map[], None, None);
    if job.root in disk && !disk[job.root].Dir? then Fail(st, WriteFailed)
    else if Occupied(disk, job.root) && !job.force then Fail(st, NotEmpty)
    else match MkdirAll(disk, job.root)
      case None => Fail(st, WriteFailed)
      case Some(made) => st.(disk := made)
  }

  function Finish(st: Progress): Progress {
    if st.failed.Some? then st
    else if st.manifest.None? then Fail(st, NoManifest)
    else if !AllMatch(st.sums, st.manifest.value) then Fail(st, Mismatch)
    else st
  }

  function RestoreAll(job: Job, disk: Tree, entries: seq<Entry>): Progress {
    Finish(ExtractAll(job, Begin(job, disk), entries))
  }

  class Disk {
    var nodes: Tree

    constructor (nodes: Tree)
      ensures this.nodes == nodes
    {
      this.nodes := nodes;
    }

    method MakeDirs(path: string) returns (ok: bool)
      modifies this
      ensures ok == MkdirAll(old(nodes), path).Some?
      ensures nodes == if ok then MkdirAll(old(nodes), path).value else old(nodes)
    {
      ok := !Blocked(nodes, Ancestors(path) + {path});
      if ok {
        nodes := WithDirs(nodes, Ancestors(path) + {path});
      }
    }

    /** writeFromTar; on success the checksum of the written bytes. */
    method Write(path: string, data: Bytes, codec: Codec) returns (sum: Option<string>)
      modifies this
      ensures match WriteFile(old(nodes), path, data)
              case None => sum.None? && nodes == old(nodes)
              case Some(disk) => sum == Some(codec.hash(data)) && nodes == disk
    {
      if Blocked(nodes, Ancestors(path)) || (path in nodes && !nodes[path].Regular?) {
        return None;
      }
      nodes := WithDirs(nodes, Ancestors(path));
      nodes := nodes[path := Regular(data)];
      return Some(codec.hash(data));
    }
  }

  /** Where an extracted name goes, written as the source writes it. */
  function Target(flags: Flags, which: Case, clean: string): string {
    Resolve(flags.cwd, if which.Audit? then AuditFlag(flags) else JoinPath(flags.dataDir, clean))
  }

  predicate Extracts(which: Case) {
    which.Audit? || which.Dump? || which.Data?
  }

  /** Names the loop extracts have a plain element first. */
  lemma StoredName(clean: string)
    requires Extracts(CaseOf(clean))
    ensures clean != "" && clean != "." && !IsAbs(clean) && !HasDots(clean)
    ensures CaseOf(clean).Audit? <==> clean == AUDIT
  {
    assert clean[0] == AUDIT[0] || clean[0] == DUMPS[0] || clean[0] == WORKSPACES[0] || clean[0] == VAULT[0];
  }

  /** However the directory is written, an entry goes below what it resolves to. */
  lemma TargetIsDest(flags: Flags, codec: Codec, path: string)
    requires IsAbs(flags.cwd) && flags.dataDir != "" && Extracts(CaseOf(Clean(path)))
    ensures Target(flags, CaseOf(Clean(path)), Clean(path)) == Dest(JobOf(flags, codec), Clean(path))
  {
    var clean := Clean(path);
    StoredName(clean);
    if !CaseOf(clean).Audit? {
      assert !IsAbs(path);
      CleanedPartsArePlain(path);
      ResolveJoined(flags.cwd, flags.dataDir, clean);
    }
  }

  /** writeFromTar for one entry, and the checksum it records. */
  method ExtractFile(job: Job, disk: Disk, clean: string, dest: string, body: Bytes,
                     sums: map<string, string>, ghost manifest: Option<map<string, string>>)
    returns (sums': map<string, string>, ok: bool)
    requires dest == Dest(job, clean)
    modifies disk
    ensures Progress(disk.nodes, sums', manifest, if ok then None else Some(WriteFailed))
         == Extracted(job, Progress(old(disk.nodes), sums, manifest, None), clean, body)
  {
    var sum := disk.Write(dest, body, job.codec);
    ok := sum.Some?;
    sums' := if ok then sums[clean := sum.value] else sums;
  }

  /** The switch, for one entry. */
  method ExtractEntry(job: Job, disk: Disk, which: Case, clean: string, dest: string, isDir: bool, body: Bytes,
                      sums: map<string, string>, manifest: Option<map<string, string>>)
    returns (sums': map<string, string>, manifest': Option<map<string, string>>, failed: Option<Failure>)
    requires Extracts(which) ==> dest == Dest(job, clean)
    modifies disk
    ensures Progress(disk.nodes, sums', manifest', failed)
         == ExtractCase(job, Progress(old(disk.nodes), sums, manifest, None), which, clean, isDir, body)
  {
    sums', manifest', failed := sums, manifest, None;
    var ok := true;
    match which {
      case Escaping => failed := Some(Escapes);
      case Manifest =>
        var m := job.codec.decode(body);
        if m.None? {
          failed := Some(BadManifest);
        } else {
          manifest' := m;
        }
      case Audit =>
        sums', ok := ExtractFile(job, disk, clean, dest, body, sums, manifest);
      case Dump =>
        sums', ok := ExtractFile(job, disk, clean, dest, body, sums, manifest);
      case Data =>
        if isDir {
          ok := disk.MakeDirs(dest);
        } else {
          sums', ok := ExtractFile(job, disk, clean, dest, body, sums, manifest);
        }
      case Unknown =>
    }
    if !ok {
      failed := Some(WriteFailed);
    }
  }

  /** Runs one entry; `failed` as the source's early return. */
  method RestoreEntry(flags: Flags, codec: Codec, disk: Disk, e: Entry,
                      sums: map<string, string>, manifest: Option<map<string, string>>)
    returns (sums': map<string, string>, manifest': Option<map<string, string>>, failed: Option<Failure>)
    requires IsAbs(flags.cwd) && flags.dataDir != ""
    modifies disk
    ensures Progress(disk.nodes, sums', manifest', failed)
         == ExtractOne(JobOf(flags, codec), Progress(old(disk.nodes), sums, manifest, None), e)
  {
    var clean := Clean(e.name);
    var which := CaseOf(clean);
    if Extracts(which) {
      TargetIsDest(flags, codec, e.name);
    }
    var dest := Target(flags, which, clean);
    sums', manifest', failed :=
      ExtractEntry(JobOf(flags, codec), disk, which, clean, dest, e.isDir, e.body, sums, manifest);
  }

  /** The empty-target check and the data directory itself. */
  method Prepare(job: Job, disk: Disk) returns (failed: Option<Failure>)
    modifies disk
    ensures Progress(disk.nodes, map[], None, failed) == Begin(job, old(disk.nodes))
  {
    if job.root in disk.nodes && !disk.nodes[job.root].Dir? {
      return Some(WriteFailed);
    }
    if Occupied(disk.nodes, job.root) && !job.force {
      return Some(NotEmpty);
    }
    var made := disk.MakeDirs(job.root);
    return if made then None else Some(WriteFailed);
  }

  /** An absolute working directory is the system's, a data directory the command's own demand. */
  method RunAdminRestore(flags: Flags, codec: Codec, disk: Disk, entries: seq<Entry>) returns (failed: Option<Failure>)
    requires IsAbs(flags.cwd) && flags.dataDir != ""
    modifies disk
    ensures failed == RestoreAll(JobOf(flags, codec), old(disk.nodes), entries).failed
    ensures disk.nodes == RestoreAll(JobOf(flags, codec), old(disk.nodes), entries).disk
  {
    ghost var job := JobOf(flags, codec);
    ghost var st0 := Begin(job, disk.nodes);
    failed := Prepare(JobOf(flags, codec), disk);
    if failed.Some? {
      FailedStays(job, st0, entries);
      return;
    }
    var sums: map<string, string> := map[];
    var manifest: Option<map<string, string>> := None;
    for i := 0 to |entries|
      invariant Progress(disk.nodes, sums, manifest, None) == ExtractAll(job, st0, entries[..i])
    {
      assert entries[..i + 1][..i] == entries[..i];
      sums, manifest, failed := RestoreEntry(flags, codec, disk, entries[i], sums, manifest);
      if failed.Some? {
        FailedPrefix(job, st0, entries, i + 1);
        return;
      }
    }
    assert entries[..|entries|] == entries;
    if manifest.None? {
      return Some(NoManifest);
    }
    if !AllMatch(sums, manifest.value) {
      return Some(Mismatch);
    }
    return None;
  }

  lemma {:induction false} FailedStays(job: Job, st: Progress, entries: seq<Entry>)
    requires st.failed.Some?
    ensures ExtractAll(job, st, entries) == st
  {
    if entries != [] {
      FailedStays(job, st, entries[..|entries| - 1]);
    }
  }

  lemma {:induction false} FailedPrefix(job: Job, st: Progress, entries: seq<Entry>, k: nat)
    requires k <= |entries| && ExtractAll(job, st, entries[..k]).failed.Some?
    ensures ExtractAll(job, st, entries) == ExtractAll(job, st, entries[..k])
    decreases |entries|
  {
    if k == |entries| {
      assert entries[..k] == entries;
    } else {
      var init := entries[..|entries| - 1];
      assert init[..k] == entries[..k];
      FailedPrefix(job, st, init, k);
    }
  }
}
