/** What a manifest says about the disk after a restore that succeeded. */
module RestoreProofs {
  import opened Outcomes
  import Text
  import opened Paths
  import opened Backup
  import opened Restore

  /** The cleaned entry names that are extracted. */
  predicate Extractable(name: string) {
    Extracts(CaseOf(name)) && Clean(name) == name
  }

  /** No other entry is extracted to the audit destination. A caller can check this before the
      restore; the default destination always passes. */
  predicate AuditApart(job: Job) {
    Slashed(job.root) <= job.auditOut ==>
      var name := job.auditOut[|Slashed(job.root)|..];
      name == AUDIT || !Extractable(name)
  }

  /** The file a name was extracted to exists and has this checksum. */
  predicate OnDisk(job: Job, disk: Tree, name: string, sum: string) {
    && Dest(job, name) in disk && disk[Dest(job, name)].Regular?
    && job.codec.hash(disk[Dest(job, name)].data) == sum
  }

  /** The running checksum map describes the last write to each destination. */
  predicate SumsDescribe(job: Job, st: Progress) {
    forall name | name in st.sums :: Extractable(name) && OnDisk(job, st.disk, name, st.sums[name])
  }

  lemma Below(home: string, name: string)
    ensures home <= home + name && (home + name)[|home|..] == name
  {
  }

  lemma DestInjective(job: Job, a: string, b: string)
    requires AuditApart(job) && Extractable(a) && Extractable(b) && a != b
    ensures Dest(job, a) != Dest(job, b)
  {
    Below(Slashed(job.root), a);
    Below(Slashed(job.root), b);
  }

  lemma CleanedIsExtractable(path: string)
    requires Extracts(CaseOf(Clean(path)))
    ensures Extractable(Clean(path))
  {
    StoredName(Clean(path));
    CleanTwice(path);
  }

  lemma WriteKeepsFiles(disk: Tree, path: string, data: Bytes, q: string)
    requires WriteFile(disk, path, data).Some? && q in disk && q != path && disk[q].Regular?
    ensures q in WriteFile(disk, path, data).value && WriteFile(disk, path, data).value[q] == disk[q]
  {
  }

  lemma SumsDescribeWrite(job: Job, st: Progress, name: string, data: Bytes)
    requires AuditApart(job) && SumsDescribe(job, st) && Extractable(name)
    ensures SumsDescribe(job, Extracted(job, st, name, data))
  {
    var next := Extracted(job, st, name, data);
    if WriteFile(st.disk, Dest(job, name), data).Some? {
      forall other | other in next.sums ensures Extractable(other) && OnDisk(job, next.disk, other, next.sums[other]) {
        if other != name {
          assert other in st.sums;
          DestInjective(job, other, name);
          WriteKeepsFiles(st.disk, Dest(job, name), data, Dest(job, other));
        }
      }
    }
  }

  lemma MkdirKeepsFiles(disk: Tree, path: string, q: string)
    requires MkdirAll(disk, path).Some? && q in disk
    ensures q in MkdirAll(disk, path).value && MkdirAll(disk, path).value[q] == disk[q]
  {
  }

  lemma SumsDescribeMade(job: Job, st: Progress, name: string)
    requires SumsDescribe(job, st)
    ensures SumsDescribe(job, Made(job, st, name))
  {
    if MkdirAll(st.disk, Dest(job, name)).Some? {
      forall other | other in st.sums ensures OnDisk(job, Made(job, st, name).disk, other, st.sums[other]) {
        assert OnDisk(job, st.disk, other, st.sums[other]);
        MkdirKeepsFiles(st.disk, Dest(job, name), Dest(job, other));
      }
    }
  }

  lemma SumsDescribeDecoded(job: Job, st: Progress, body: Bytes)
    requires SumsDescribe(job, st)
    ensures SumsDescribe(job, Decoded(job, st, body))
  {
  }

  lemma SumsDescribeCase(job: Job, st: Progress, which: Case, clean: string, isDir: bool, body: Bytes)
    requires AuditApart(job) && SumsDescribe(job, st) && (Extracts(which) ==> Extractable(clean))
    ensures SumsDescribe(job, ExtractCase(job, st, which, clean, isDir, body))
  {
    match which
    case Escaping =>
    case Manifest => SumsDescribeDecoded(job, st, body);
    case Audit => SumsDescribeWrite(job, st, clean, body);
    case Dump => SumsDescribeWrite(job, st, clean, body);
    case Data =>
      if isDir {
        SumsDescribeMade(job, st, clean);
      } else {
        SumsDescribeWrite(job, st, clean, body);
      }
    case Unknown =>
  }

  lemma SumsDescribeStep(job: Job, st: Progress, e: Entry)
    requires AuditApart(job) && SumsDescribe(job, st)
    ensures SumsDescribe(job, ExtractOne(job, st, e))
  {
    if Extracts(CaseOf(Clean(e.name))) {
      CleanedIsExtractable(e.name);
    }
    SumsDescribeCase(job, st, CaseOf(Clean(e.name)), Clean(e.name), e.isDir, e.body);
  }

  lemma {:induction false} SumsDescribeAll(job: Job, st: Progress, entries: seq<Entry>)
    requires AuditApart(job) && SumsDescribe(job, st)
    ensures SumsDescribe(job, ExtractAll(job, st, entries))
  {
    if entries != [] {
      SumsDescribeAll(job, st, entries[..|entries| - 1]);
      SumsDescribeStep(job, ExtractAll(job, st, entries[..|entries| - 1]), entries[|entries| - 1]);
    }
  }

  /** Every name of the manifest was extracted, and the file it went to has the manifest's checksum. */
  predicate Certified(job: Job, end: Progress) {
    end.manifest.Some? && forall name | name in end.manifest.value ::
      OnDisk(job, end.disk, name, end.manifest.value[name])
  }

  /** What the end of a restore decides once a manifest was read. */
  lemma FinishDecides(st: Progress, manifest: map<string, string>)
    requires st.failed.None? && st.manifest == Some(manifest)
    ensures Finish(st).failed.None? <==> AllMatch(st.sums, manifest)
    ensures Finish(st).disk == st.disk && (Finish(st).failed.None? ==> Finish(st) == st)
  {
  }

  lemma MatchedAreOnDisk(job: Job, st: Progress, manifest: map<string, string>)
    requires SumsDescribe(job, st) && AllMatch(st.sums, manifest)
    ensures forall name | name in manifest :: OnDisk(job, st.disk, name, manifest[name])
  {
  }

  lemma FinishedIsCertified(job: Job, st: Progress)
    requires SumsDescribe(job, st) && Finish(st).failed.None?
    ensures Certified(job, Finish(st))
  {
    FinishDecides(st, st.manifest.value);
    MatchedAreOnDisk(job, st, st.manifest.value);
  }

  lemma BeginDescribes(job: Job, disk: Tree)
    ensures SumsDescribe(job, Begin(job, disk))
  {
    assert Begin(job, disk).sums == map[];
  }

  /** Whatever the entries, their order and their repetitions: a restore that succeeds leaves on
      disk what its manifest certifies. */
  lemma SuccessIsCertified(job: Job, disk: Tree, entries: seq<Entry>)
    requires AuditApart(job) && RestoreAll(job, disk, entries).failed.None?
    ensures Certified(job, RestoreAll(job, disk, entries))
  {
    BeginDescribes(job, disk);
    SumsDescribeAll(job, Begin(job, disk), entries);
    FinishedIsCertified(job, ExtractAll(job, Begin(job, disk), entries));
  }

  // The fixed names

  lemma FixedName(name: string)
    requires name == AUDIT || name == MANIFEST
    ensures Plain(name) && !HasDots(name) && IsAscii(name) && name != ""
  {
    assert |name| == 11 || |name| == 13;
    assert forall i :: 0 <= i < |name| ==> name[i] != '/' && name[i] < 128 as char;
    assert forall i :: 0 <= i < |name| - 1 ==> name[i] != '.' || name[i + 1] == 'j';
  }

  /** The fixed names are told apart by their first letters, and their cases follow. */
  lemma FixedCases()
    ensures AUDIT != MANIFEST && CaseOf(AUDIT) == Audit && CaseOf(MANIFEST) == Manifest
    ensures Clean(AUDIT) == AUDIT && Clean(MANIFEST) == MANIFEST && Extractable(AUDIT)
  {
    assert AUDIT[0] == 'a' && MANIFEST[0] == 'm';
    FixedName(AUDIT);
    FixedName(MANIFEST);
    CleanFixesPlain(AUDIT);
    CleanFixesPlain(MANIFEST);
  }

  lemma DefaultAuditIsApart(job: Job)
    requires job.auditOut == DefaultAudit(job.root)
    ensures AuditApart(job)
  {
    Below(Slashed(job.root), AUDIT);
  }

  /** No audit flag leads to the default destination, however the data directory is written. */
  lemma NoAuditFlagIsDefault(flags: Flags, codec: Codec)
    requires IsAbs(flags.cwd) && flags.dataDir != "" && flags.auditLog == ""
    ensures JobOf(flags, codec).auditOut == DefaultAudit(JobOf(flags, codec).root)
    ensures AuditApart(JobOf(flags, codec))
  {
    FixedName(AUDIT);
    PlainSplits(AUDIT);
    ResolveJoined(flags.cwd, flags.dataDir, AUDIT);
    DefaultAuditIsApart(JobOf(flags, codec));
  }

  lemma PlainSplits(part: string)
    requires Plain(part)
    ensures forall p | p in Text.Split(part, '/') :: Plain(p)
  {
    Text.SplitOfJoin([part], '/');
  }

  /** No other extracted name, joined to the data directory as it is written, leads where the
      audit log goes. */
  ghost predicate ApartAsWritten(flags: Flags) {
    forall name | Extractable(name) && name != AUDIT :: EntryPath(flags, name) != Resolve(flags.cwd, AuditFlag(flags))
  }

  function EntryPath(flags: Flags, name: string): string {
    Resolve(flags.cwd, JoinPath(flags.dataDir, name))
  }

  lemma EntryPathIsDest(flags: Flags, codec: Codec, name: string)
    requires IsAbs(flags.cwd) && flags.dataDir != "" && Extractable(name) && name != AUDIT
    ensures EntryPath(flags, name) == Dest(JobOf(flags, codec), name) == Slashed(JobOf(flags, codec).root) + name
  {
    StoredName(name);
    TargetIsDest(flags, codec, name);
  }

  lemma ApartIffNoneThere(job: Job)
    ensures AuditApart(job) <==>
              forall name | Extractable(name) && name != AUDIT :: Slashed(job.root) + name != job.auditOut
  {
    if AuditApart(job) {
      forall name | Extractable(name) && name != AUDIT ensures Slashed(job.root) + name != job.auditOut {
        Below(Slashed(job.root), name);
      }
    } else {
      var name := CollidingName(job);
      assert Slashed(job.root) + name == job.auditOut;
    }
  }

  /** In the source's own terms: the audit destination is apart exactly when no other entry's path,
      as the source joins it, resolves to it. */
  lemma ApartIffApartAsWritten(flags: Flags, codec: Codec)
    requires IsAbs(flags.cwd) && flags.dataDir != ""
    ensures AuditApart(JobOf(flags, codec)) <==> ApartAsWritten(flags)
  {
    ApartIffNoneThere(JobOf(flags, codec));
    forall name | Extractable(name) && name != AUDIT
      ensures EntryPath(flags, name) == Slashed(JobOf(flags, codec).root) + name
    {
      EntryPathIsDest(flags, codec, name);
    }
  }

  // An archive its manifest does not certify

  ghost predicate AlwaysCertified(job: Job) {
    forall disk, entries ::
      RestoreAll(job, disk, entries).failed.None? ==> Certified(job, RestoreAll(job, disk, entries))
  }

  lemma RunThree(job: Job, st0: Progress, entries: seq<Entry>)
    requires |entries| == 3
    ensures ExtractAll(job, st0, entries)
      == ExtractOne(job, ExtractOne(job, ExtractOne(job, st0, entries[0]), entries[1]), entries[2])
  {
    var two := entries[..2];
    assert ExtractAll(job, st0, entries) == ExtractOne(job, ExtractAll(job, st0, two), entries[2]);
    var one := two[..1];
    assert ExtractAll(job, st0, two) == ExtractOne(job, ExtractAll(job, st0, one), two[1]);
    assert ExtractAll(job, st0, one) == ExtractOne(job, ExtractAll(job, st0, one[..0]), one[0]);
    assert one[..0] == [];
  }

  /** On an empty disk any file below the data directory can be written at first. */
  lemma BeginEmpty(job: Job, path: string, data: Bytes)
    requires job.root != "" && Slashed(job.root) < path
    ensures var st := Begin(job, map[]);
            && st.failed.None? && st.sums == map[]
            && WriteFile(st.disk, path, data).Some?
  {
    assert |path| > |job.root| && path !in Ancestors(job.root) + {job.root};
  }

  /** Two entries extracted to one path: both are recorded, the second one's bytes stay. */
  lemma Overwritten(job: Job, st: Progress, audit: string, name: string, one: Bytes, two: Bytes)
    requires st.failed.None? && Dest(job, name) == Dest(job, audit) && name != audit
    requires WriteFile(st.disk, Dest(job, audit), one).Some?
    ensures var first := Extracted(job, st, audit, one);
            var both := Extracted(job, first, name, two);
            && first.failed.None? && both.failed.None?
            && both.sums == st.sums[audit := job.codec.hash(one)][name := job.codec.hash(two)]
            && both.manifest == st.manifest
            && Dest(job, audit) in both.disk && both.disk[Dest(job, audit)] == Regular(two)
  {
    assert Dest(job, audit) !in Ancestors(Dest(job, audit));
  }

  lemma NamedEntry(job: Job, st: Progress, e: Entry, which: Case, clean: string)
    requires st.failed.None? && Clean(e.name) == clean && CaseOf(clean) == which
    ensures ExtractOne(job, st, e) == ExtractCase(job, st, which, clean, e.isDir, e.body)
  {
  }

  lemma FileCase(job: Job, st: Progress, which: Case, clean: string, body: Bytes)
    requires Extracts(which)
    ensures ExtractCase(job, st, which, clean, false, body) == Extracted(job, st, clean, body)
  {
  }

  lemma NamedFile(job: Job, st: Progress, name: string, data: Bytes)
    requires st.failed.None? && Extractable(name)
    ensures ExtractOne(job, st, Entry(name, false, data)) == Extracted(job, st, name, data)
  {
    NamedEntry(job, st, Entry(name, false, data), CaseOf(name), name);
    FileCase(job, st, CaseOf(name), name, data);
  }

  lemma NamedManifest(job: Job, st: Progress, name: string, sums: map<string, string>)
    requires st.failed.None? && Clean(name) == name && CaseOf(name).Manifest?
    requires job.codec.Lawful() && AsciiSums(sums)
    ensures ExtractOne(job, st, Entry(name, false, job.codec.encode(sums)))
         == st.(manifest := Some(job.codec.Carried(sums)))
  {
    NamedEntry(job, st, Entry(name, false, job.codec.encode(sums)), Manifest, name);
  }

  lemma NotCertified(job: Job, end: Progress, name: string, one: Bytes, two: Bytes)
    requires end.failed.None? && end.manifest == Some(map[name := job.codec.hash(one)])
    requires name in end.sums && end.sums[name] == job.codec.hash(one) != job.codec.hash(two)
    requires Dest(job, name) in end.disk && end.disk[Dest(job, name)] == Regular(two)
    ensures Finish(end) == end && !Certified(job, end)
  {
    assert !OnDisk(job, end.disk, name, end.manifest.value[name]);
  }

  lemma OverwritingFiles(job: Job, audit: string, name: string, one: Bytes, two: Bytes) returns (end: Progress)
    requires job.root != "" && Extractable(audit) && Extractable(name) && name != audit
    requires Dest(job, name) == Dest(job, audit) && Slashed(job.root) < Dest(job, audit)
    ensures end ==
            ExtractOne(job, ExtractOne(job, Begin(job, map[]), Entry(audit, false, one)), Entry(name, false, two))
    ensures end.failed.None? && audit in end.sums && end.sums[audit] == job.codec.hash(one)
    ensures Dest(job, audit) in end.disk && end.disk[Dest(job, audit)] == Regular(two)
  {
    var st0 := Begin(job, map[]);
    BeginEmpty(job, Dest(job, audit), one);
    Overwritten(job, st0, audit, name, one, two);
    NamedFile(job, st0, audit, one);
    NamedFile(job, Extracted(job, st0, audit, one), name, two);
    end := Extracted(job, Extracted(job, st0, audit, one), name, two);
  }

  function OverwritingEntries(job: Job, audit: string, name: string, manifest: string,
      one: Bytes, two: Bytes): seq<Entry>
  {
    [Entry(audit, false, one), Entry(name, false, two),
     Entry(manifest, false, job.codec.encode(map[audit := job.codec.hash(one)]))]
  }

  lemma ThreeExtracted(job: Job, st0: Progress, entries: seq<Entry>, a: Entry, b: Entry, mid: Progress, end: Progress)
    requires |entries| == 3 && entries[0] == a && entries[1] == b
    requires mid == ExtractOne(job, ExtractOne(job, st0, a), b) && end == ExtractOne(job, mid, entries[2])
    ensures ExtractAll(job, st0, entries) == end
  {
    RunThree(job, st0, entries);
  }

  lemma HashIsAscii(codec: Codec, data: Bytes)
    requires codec.Lawful()
    ensures IsAscii(codec.hash(data))
  {
  }

  lemma OneCarried(codec: Codec, name: string, sum: string)
    requires codec.Lawful() && codec.carry(name) == name
    ensures codec.Carried(map[name := sum]) == map[name := sum]
  {
    codec.CarriedKeeps(map[name := sum]);
  }

  lemma OneIsAscii(name: string, sum: string)
    requires IsAscii(sum)
    ensures AsciiSums(map[name := sum])
  {
  }

  lemma OverwritingExtracted(job: Job, audit: string, name: string, manifest: string, one: Bytes, two: Bytes)
    returns (end: Progress)
    requires job.codec.Lawful() && job.root != ""
    requires Extractable(audit) && Extractable(name) && name != audit && job.codec.carry(audit) == audit
    requires Dest(job, name) == Dest(job, audit) && Slashed(job.root) < Dest(job, audit)
    requires Clean(manifest) == manifest && CaseOf(manifest).Manifest?
    ensures end == ExtractAll(job, Begin(job, map[]), OverwritingEntries(job, audit, name, manifest, one, two))
    ensures end.failed.None? && audit in end.sums && end.sums[audit] == job.codec.hash(one)
    ensures end.manifest == Some(map[audit := job.codec.hash(one)])
    ensures Dest(job, audit) in end.disk && end.disk[Dest(job, audit)] == Regular(two)
  {
    var sums := map[audit := job.codec.hash(one)];
    var mid := OverwritingFiles(job, audit, name, one, two);
    HashIsAscii(job.codec, one);
    OneIsAscii(audit, job.codec.hash(one));
    OneCarried(job.codec, audit, job.codec.hash(one));
    NamedManifest(job, mid, manifest, sums);
    end := mid.(manifest := Some(sums));
    ThreeExtracted(job, Begin(job, map[]), OverwritingEntries(job, audit, name, manifest, one, two),
                   Entry(audit, false, one), Entry(name, false, two), mid, end);
  }

  lemma OverwritingRun(job: Job, audit: string, name: string, manifest: string, one: Bytes, two: Bytes)
    requires job.codec.Lawful() && job.root != "" && job.codec.hash(one) != job.codec.hash(two)
    requires Extractable(audit) && Extractable(name) && name != audit && job.codec.carry(audit) == audit
    requires Dest(job, name) == Dest(job, audit) && Slashed(job.root) < Dest(job, audit)
    requires Clean(manifest) == manifest && CaseOf(manifest).Manifest?
    ensures var entries := OverwritingEntries(job, audit, name, manifest, one, two);
            && RestoreAll(job, map[], entries).failed.None?
            && !Certified(job, RestoreAll(job, map[], entries))
  {
    var end := OverwritingExtracted(job, audit, name, manifest, one, two);
    NotCertified(job, end, audit, one, two);
  }

  /** The entry that shares the audit log's destination. */
  lemma CollidingName(job: Job) returns (name: string)
    requires !AuditApart(job)
    ensures Extractable(name) && name != AUDIT && Dest(job, name) == job.auditOut && Slashed(job.root) < job.auditOut
  {
    var home := Slashed(job.root);
    name := job.auditOut[|home|..];
    assert job.auditOut == home + name;
    StoredName(name);
  }

  /** An archive with an audit log and an entry that lands on it: restored without complaint, yet
      the certified bytes are gone. */
  lemma OverwritingArchive(job: Job, one: Bytes, two: Bytes) returns (entries: seq<Entry>)
    requires job.codec.Lawful() && !AuditApart(job) && job.root != "" && job.codec.hash(one) != job.codec.hash(two)
    ensures RestoreAll(job, map[], entries).failed.None?
    ensures !Certified(job, RestoreAll(job, map[], entries))
  {
    var name := CollidingName(job);
    FixedCases();
    FixedName(AUDIT);
    OverwritingRun(job, AUDIT, name, MANIFEST, one, two);
    entries := OverwritingEntries(job, AUDIT, name, MANIFEST, one, two);
  }

  /** So a manifest certifies every successful restore exactly when the audit destination is
      nobody else's. */
  lemma CertifiesIffAuditApart(job: Job, one: Bytes, two: Bytes)
    requires job.codec.Lawful() && job.root != "" && job.codec.hash(one) != job.codec.hash(two)
    ensures AlwaysCertified(job) <==> AuditApart(job)
  {
    if AuditApart(job) {
      forall disk, entries | RestoreAll(job, disk, entries).failed.None?
        ensures Certified(job, RestoreAll(job, disk, entries))
      {
        SuccessIsCertified(job, disk, entries);
      }
    } else {
      var entries := OverwritingArchive(job, one, two);
      assert RestoreAll(job, map[], entries).failed.None?;
    }
  }

  /** A data directory always resolves to an absolute path. */
  lemma RootIsAbs(flags: Flags, codec: Codec)
    requires IsAbs(flags.cwd)
    ensures IsAbs(JobOf(flags, codec).root)
  {
    CleanRooted(if IsAbs(flags.dataDir) then flags.dataDir else flags.cwd + "/" + flags.dataDir);
  }

  /** The same of a command line, whatever its flags and working directory. */
  lemma FlagsCertifyIffAuditApart(flags: Flags, codec: Codec, one: Bytes, two: Bytes)
    requires IsAbs(flags.cwd) && flags.dataDir != "" && codec.Lawful() && codec.hash(one) != codec.hash(two)
    ensures AlwaysCertified(JobOf(flags, codec)) <==> ApartAsWritten(flags)
  {
    RootIsAbs(flags, codec);
    CertifiesIffAuditApart(JobOf(flags, codec), one, two);
    ApartIffApartAsWritten(flags, codec);
  }
}
