/** internal/cli/admin_backup.go: the archive a backup writes and what a restore makes of an
    archive. Paths map to nodes; I/O is taken to succeed except where the tree itself is in
    the way (a file where a directory is needed, or the reverse). */
module Backup {
  import opened Outcomes

  type Bytes = string

  /** `Other` is what filepath.Walk skips (links, sockets); reading through it still yields bytes. */
  datatype Node = Dir | Regular(data: Bytes) | Other(data: Bytes)

  type Tree = map<string, Node>

  datatype Entry = Entry(name: string, isDir: bool, body: Bytes)

  /** SHA-256 in hex, and the JSON form of the manifest's checksum map. JSON text is UTF-8, so
      `carry` says what becomes of a name on the way: bytes that are no UTF-8 are replaced. When
      several names of a map become one, `keeper` is the one whose checksum is read back. */
  datatype Codec = Codec(
    hash: Bytes -> string,
    encode: map<string, string> -> Bytes,
    decode: Bytes -> Option<map<string, string>>,
    carry: string -> string,
    keeper: (set<string>, string) -> string)
  {
    function Carried(m: map<string, string>): map<string, string> {
      map name | name in (set n | n in m :: carry(n)) && keeper(m.Keys, name) in m :: m[keeper(m.Keys, name)]
    }

    /** Checksums are hex digits, and the text carries any map from names to such. */
    ghost predicate Lawful() {
      && (forall data :: IsAscii(hash(data)))
      && (forall m | AsciiSums(m) :: decode(encode(m)) == Some(Carried(m)))
      && (forall name | IsAscii(name) :: carry(name) == name)
      && (forall names, name {:trigger keeper(names, carry(name))} | name in names ::
            keeper(names, carry(name)) in names && carry(keeper(names, carry(name))) == carry(name))
    }

    /** A map of names that all survive is read back as it was. */
    lemma CarriedKeeps(m: map<string, string>)
      requires Lawful() && forall name | name in m :: carry(name) == name
      ensures Carried(m) == m
    {
      forall name | name in m ensures keeper(m.Keys, name) == name {
        assert name in m.Keys && keeper(m.Keys, carry(name)) in m.Keys;
      }
    }
  }

  predicate IsAscii(name: string) {
    forall c | c in name :: c < 128 as char
  }

  predicate AsciiSums(m: map<string, string>) {
    forall name | name in m :: IsAscii(m[name])
  }

  const MANIFEST := "manifest.json"
  const DOLT := "dolt/"
  const WORKSPACES := "workspaces/"
  const AUDIT := "audit.jsonl"
  const DUMPS := "dolt-dumps/"
  const VAULT := "vault.db"

  // Backup, with dolt dumps skipped

  /** The data directory, keyed by path relative to it, and the audit log if one is configured. */
  datatype Source = Source(tree: Tree, audit: Option<Node>)

  predicate InTrees(name: string) {
    DOLT <= name || WORKSPACES <= name
  }

  /** The bytes a backup stores under an entry name. */
  function Saved(src: Source, name: string): Option<Bytes> {
    if name == AUDIT then
      if src.audit.Some? && !src.audit.value.Dir? then Some(src.audit.value.data) else None
    else if name == VAULT then
      if name in src.tree && !src.tree[name].Dir? then Some(src.tree[name].data) else None
    else if InTrees(name) && name in src.tree && src.tree[name].Regular? then Some(src.tree[name].data)
    else None
  }

  predicate SavedDir(src: Source, path: string) {
    InTrees(path) && path in src.tree && src.tree[path].Dir?
  }

  function SavedNames(src: Source): set<string> {
    set name | name in src.tree.Keys + {AUDIT, VAULT} && Saved(src, name).Some?
  }

  /** The checksum map of a sequence of entries, the last file of a name winning. */
  function SumsOf(codec: Codec, entries: seq<Entry>): map<string, string> {
    if entries == [] then map[] else
      var n := |entries| - 1;
      var sums := SumsOf(codec, entries[..n]);
      if entries[n].isDir then sums else sums[entries[n].name := codec.hash(entries[n].body)]
  }

  /** The archive entry of a file or directory of the tree. */
  function EntryOf(tree: Tree, path: string): Entry
    requires path in tree
  {
    if tree[path].Dir? then Entry(path + "/", true, "") else Entry(path, false, tree[path].data)
  }

  /** An entry that stores something of the source, as it is there. */
  ghost predicate Faithful(src: Source, e: Entry) {
    if e.isDir then exists path :: SavedDir(src, path) && e.name == path + "/"
    else Saved(src, e.name) == Some(e.body)
  }

  /** An archive of the source: nothing but faithful entries, one for every saved file and
      directory, and last the manifest with the checksums of all of them. */
  ghost predicate Packs(src: Source, codec: Codec, entries: seq<Entry>) {
    && entries != []
    && var body := entries[..|entries| - 1];
    && entries[|entries| - 1] == Entry(MANIFEST, false, codec.encode(SumsOf(codec, body)))
    && (forall e | e in body :: Faithful(src, e))
    && (forall name | name in SavedNames(src) :: Entry(name, false, Saved(src, name).value) in body)
    && (forall path | path in src.tree && SavedDir(src, path) :: EntryOf(src.tree, path) in body)
  }

  function Under(tree: Tree, prefix: string): set<string> {
    set path | path in tree && prefix <= path
  }

  function Stored(tree: Tree, path: string): seq<Entry>
    requires path in tree
  {
    if tree[path].Other? then [] else [EntryOf(tree, path)]
  }

  /** `added` holds the entries of `paths` and nothing else. */
  ghost predicate Walked(tree: Tree, paths: set<string>, added: seq<Entry>) {
    && paths <= tree.Keys
    && (forall path | path in paths && !tree[path].Other? :: EntryOf(tree, path) in added)
    && (forall e | e in added :: exists path :: path in paths && !tree[path].Other? && e == EntryOf(tree, path))
  }

  lemma WalkedNext(tree: Tree, paths: set<string>, added: seq<Entry>, path: string)
    requires Walked(tree, paths, added) && path in tree
    ensures Walked(tree, paths + {path}, added + Stored(tree, path))
  {
  }

  lemma SumsOfNext(codec: Codec, entries: seq<Entry>, e: Entry)
    ensures SumsOf(codec, entries + [e])
      == if e.isDir then SumsOf(codec, entries) else SumsOf(codec, entries)[e.name := codec.hash(e.body)]
  {
    assert (entries + [e])[..|entries|] == entries;
  }

  function Single(name: string, node: Option<Node>): seq<Entry> {
    if node.Some? && !node.value.Dir? then [Entry(name, false, node.value.data)] else []
  }

  function At(tree: Tree, path: string): Option<Node> {
    if path in tree then Some(tree[path]) else None
  }

  /** The tar writer and the manifest being filled beside it. */
  class Writer {
    const codec: Codec
    var entries: seq<Entry>
    var sums: map<string, string>

    ghost predicate Valid()
      reads this
    {
      sums == SumsOf(codec, entries)
    }

    constructor (codec: Codec)
      ensures Valid() && entries == [] && this.codec == codec
    {
      this.codec := codec;
      entries, sums := [], map[];
    }

    method TarFile(name: string, data: Bytes)
      requires Valid()
      modifies this
      ensures Valid() && entries == old(entries) + [Entry(name, false, data)]
    {
      SumsOfNext(codec, entries, Entry(name, false, data));
      entries := entries + [Entry(name, false, data)];
      sums := sums[name := codec.hash(data)];
    }

    /** A single file, if `node` is there and not a directory. */
    method TarIfFile(name: string, node: Option<Node>)
      requires Valid()
      modifies this
      ensures Valid() && entries == old(entries) + Single(name, node)
    {
      if node.Some? && !node.value.Dir? {
        TarFile(name, node.value.data);
      }
    }

    /** What the walk does at one path. */
    method TarPath(tree: Tree, path: string)
      requires Valid() && path in tree
      modifies this
      ensures Valid() && entries == old(entries) + Stored(tree, path)
    {
      if tree[path].Dir? {
        SumsOfNext(codec, entries, EntryOf(tree, path));
        entries := entries + [EntryOf(tree, path)];
      } else if tree[path].Regular? {
        TarFile(path, tree[path].data);
      }
    }

    /** Walks the paths under `prefix` in some order, skipping what is neither file nor directory. */
    method TarTree(tree: Tree, prefix: string) returns (ghost added: seq<Entry>)
      requires Valid()
      modifies this
      ensures Valid() && entries == old(entries) + added && Walked(tree, Under(tree, prefix), added)
    {
      var todo := Under(tree, prefix);
      ghost var done: set<string> := {};
      added := [];
      while todo != {}
        invariant Valid() && entries == old(entries) + added
        invariant todo !! done && todo + done == Under(tree, prefix) && Walked(tree, done, added)
      {
        var path :| path in todo;
        WalkedNext(tree, done, added, path);
        TarPath(tree, path);
        added := added + Stored(tree, path);
        todo, done := todo - {path}, done + {path};
      }
      assert done == Under(tree, prefix);
    }
  }

  lemma WalkedIsFaithful(src: Source, prefix: string, added: seq<Entry>)
    requires prefix == DOLT || prefix == WORKSPACES
    requires Walked(src.tree, Under(src.tree, prefix), added)
    ensures forall e | e in added :: Faithful(src, e)
  {
    forall e | e in added ensures Faithful(src, e) {
      var path :| path in Under(src.tree, prefix) && !src.tree[path].Other? && e == EntryOf(src.tree, path);
      assert path[0] == prefix[0];
      if src.tree[path].Dir? { assert SavedDir(src, path); }
    }
  }

  function BodyOf(src: Source, dolt: seq<Entry>, workspaces: seq<Entry>): seq<Entry> {
    dolt + workspaces + Single(VAULT, At(src.tree, VAULT)) + Single(AUDIT, src.audit)
  }

  lemma InBody(src: Source, dolt: seq<Entry>, workspaces: seq<Entry>, e: Entry)
    ensures e in BodyOf(src, dolt, workspaces) <==>
              e in dolt || e in workspaces || e in Single(VAULT, At(src.tree, VAULT)) || e in Single(AUDIT, src.audit)
  {
  }

  lemma SinglesAreFaithful(src: Source, e: Entry)
    requires e in Single(VAULT, At(src.tree, VAULT)) || e in Single(AUDIT, src.audit)
    ensures Faithful(src, e)
  {
    assert VAULT[0] == 'v' && AUDIT[0] == 'a';
  }

  lemma SavedFileInBody(src: Source, dolt: seq<Entry>, workspaces: seq<Entry>, name: string)
    requires Walked(src.tree, Under(src.tree, DOLT), dolt) && Walked(src.tree, Under(src.tree, WORKSPACES), workspaces)
    requires name in SavedNames(src)
    ensures Entry(name, false, Saved(src, name).value) in BodyOf(src, dolt, workspaces)
  {
    InBody(src, dolt, workspaces, Entry(name, false, Saved(src, name).value));
    if name !in {VAULT, AUDIT} {
      assert name in Under(src.tree, DOLT) || name in Under(src.tree, WORKSPACES);
      assert EntryOf(src.tree, name) == Entry(name, false, Saved(src, name).value);
    }
  }

  lemma SavedDirInBody(src: Source, dolt: seq<Entry>, workspaces: seq<Entry>, path: string)
    requires Walked(src.tree, Under(src.tree, DOLT), dolt) && Walked(src.tree, Under(src.tree, WORKSPACES), workspaces)
    requires SavedDir(src, path)
    ensures EntryOf(src.tree, path) in BodyOf(src, dolt, workspaces)
  {
    InBody(src, dolt, workspaces, EntryOf(src.tree, path));
    assert path in Under(src.tree, DOLT) || path in Under(src.tree, WORKSPACES);
  }

  /** What the four parts of a backup add up to. */
  lemma PartsPack(src: Source, codec: Codec, dolt: seq<Entry>, workspaces: seq<Entry>)
    requires Walked(src.tree, Under(src.tree, DOLT), dolt) && Walked(src.tree, Under(src.tree, WORKSPACES), workspaces)
    ensures var body := BodyOf(src, dolt, workspaces);
            Packs(src, codec, body + [Entry(MANIFEST, false, codec.encode(SumsOf(codec, body)))])
  {
    var body := BodyOf(src, dolt, workspaces);
    WalkedIsFaithful(src, DOLT, dolt);
    WalkedIsFaithful(src, WORKSPACES, workspaces);
    forall e | e in body ensures Faithful(src, e) {
      InBody(src, dolt, workspaces, e);
      if e !in dolt && e !in workspaces {
        SinglesAreFaithful(src, e);
      }
    }
    forall name | name in SavedNames(src) ensures Entry(name, false, Saved(src, name).value) in body {
      SavedFileInBody(src, dolt, workspaces, name);
    }
    forall path | path in src.tree && SavedDir(src, path) ensures EntryOf(src.tree, path) in body {
      SavedDirInBody(src, dolt, workspaces, path);
    }
    var archive := body + [Entry(MANIFEST, false, codec.encode(SumsOf(codec, body)))];
    assert archive[..|archive| - 1] == body;
  }

  method RunAdminBackup(src: Source, codec: Codec) returns (archive: seq<Entry>)
    ensures Packs(src, codec, archive)
  {
    var w := new Writer(codec);
    ghost var dolt := w.TarTree(src.tree, DOLT);
    ghost var workspaces := w.TarTree(src.tree, WORKSPACES);
    w.TarIfFile(VAULT, At(src.tree, VAULT));
    w.TarIfFile(AUDIT, src.audit);
    PartsPack(src, codec, dolt, workspaces);
    archive := w.entries + [Entry(MANIFEST, false, codec.encode(w.sums))];
  }
}
