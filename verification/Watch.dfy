/** cmd/gemba-bd-hook/watch.go: reading issues.jsonl, comparing two readings, and what a
    sequence of readings reports. */
module Watch {
  import opened Outcomes

  /** The two columns of an exported row that the daemon looks at. */
  datatype Row = Row(id: string, updatedAt: string)

  /** What a reader finds at the target. `whole` is false when the scan stops early. */
  datatype File = Missing | Unreadable | Lines(lines: seq<string>, whole: bool)

  type Snapshot = map<string, string>

  /** json.Unmarshal into a row: None when the line is not valid. */
  type Decoder = string -> Option<Row>

  predicate Kept(line: string, decode: Decoder) {
    |line| > 0 && line[0] == '{' && decode(line).Some? && decode(line).value.id != ""
  }

  predicate RowFor(line: string, decode: Decoder, id: string) {
    Kept(line, decode) && decode(line).value.id == id
  }

  function Rows(lines: seq<string>, decode: Decoder): Snapshot {
    if lines == [] then map[] else
      var before := Rows(lines[..|lines| - 1], decode);
      var line := lines[|lines| - 1];
      if Kept(line, decode) then before[decode(line).value.id := decode(line).value.updatedAt] else before
  }

  function Loaded(file: File, decode: Decoder): Snapshot {
    if file.Lines? then Rows(file.lines, decode) else map[]
  }

  predicate Readable(file: File) {
    file.Missing? || (file.Lines? && file.whole)
  }

  /** Line i is the last row for the id. */
  ghost predicate LastRowFor(lines: seq<string>, decode: Decoder, id: string, i: nat) {
    && i < |lines| && RowFor(lines[i], decode, id)
    && forall j | i < j < |lines| :: !RowFor(lines[j], decode, id)
  }

  /** The last row for an id decides, and only ids with a row are there. */
  lemma {:induction false} LastRowWins(lines: seq<string>, decode: Decoder, id: string)
    ensures id in Rows(lines, decode) <==> exists i :: LastRowFor(lines, decode, id, i)
    ensures forall i: nat | LastRowFor(lines, decode, id, i) ::
              id in Rows(lines, decode) && Rows(lines, decode)[id] == decode(lines[i]).value.updatedAt
  {
    if lines == [] {
    } else {
      var n := |lines| - 1;
      var front := lines[..n];
      LastRowWins(front, decode, id);
      if RowFor(lines[n], decode, id) {
        assert LastRowFor(lines, decode, id, n);
      } else {
        assert forall j | 0 <= j < n :: front[j] == lines[j];
        forall i: nat | LastRowFor(lines, decode, id, i) ensures i < n && LastRowFor(front, decode, id, i) {
        }
        forall i: nat | LastRowFor(front, decode, id, i) ensures LastRowFor(lines, decode, id, i) {
        }
      }
    }
  }

  method LoadIssuesSnapshot(file: File, decode: Decoder) returns (out: Snapshot, ok: bool)
    ensures out == Loaded(file, decode)
    ensures ok <==> file.Missing? || (file.Lines? && file.whole)
    ensures !file.Lines? ==> out == map[]
  {
    out := map[];
    if file.Missing? {
      return out, true;
    }
    if file.Unreadable? {
      return out, false;
    }
    var i := 0;
    while i < |file.lines|
      invariant 0 <= i <= |file.lines|
      invariant out == Rows(file.lines[..i], decode)
    {
      var line := file.lines[i];
      assert file.lines[..i + 1][..i] == file.lines[..i];
      i := i + 1;
      if |line| == 0 || line[0] != '{' {
        continue;
      }
      var row := decode(line);
      if row.None? || row.value.id == "" {
        continue;
      }
      out := out[row.value.id := row.value.updatedAt];
    }
    assert file.lines[..i] == file.lines;
    ok := file.whole;
  }

  /** The ids to report: new, or with another timestamp. Deletions are not among them. */
  function Changed(prev: Snapshot, next: Snapshot): set<string> {
    set id | id in next && (id !in prev || prev[id] != next[id])
  }

  ghost predicate EachOnce(out: seq<string>, ids: set<string>) {
    (forall id :: id in out <==> id in ids) && forall i, j | 0 <= i < j < |out| :: out[i] != out[j]
  }

  /** The ids come out in whatever order the map is walked, each of them once. */
  method DiffSnapshots(prev: Snapshot, next: Snapshot) returns (out: seq<string>)
    ensures EachOnce(out, Changed(prev, next))
    ensures forall id :: id in out <==> id in next && (id !in prev || prev[id] != next[id])
    ensures forall i, j | 0 <= i < j < |out| :: out[i] != out[j]
  {
    if |next| == 0 {
      return [];
    }
    out := [];
    var todo := next.Keys;
    while todo != {}
      invariant todo <= next.Keys
      invariant EachOnce(out, Changed(prev, next) - todo)
      decreases |todo|
    {
      var id :| id in todo;
      todo := todo - {id};
      if id !in prev || prev[id] != next[id] {
        out := out + [id];
      }
    }
  }

  class Daemon {
    var snap: Snapshot

    /** The seed is whatever the first reading got, even when it stopped early. */
    constructor (file: File, decode: Decoder)
      ensures snap == Loaded(file, decode)
    {
      var seed, _ := LoadIssuesSnapshot(file, decode);
      snap := seed;
    }

    /** A reading that fails changes nothing and reports nothing. */
    method Flush(file: File, decode: Decoder) returns (changed: seq<string>)
      modifies this
      ensures snap == if Readable(file) then Loaded(file, decode) else old(snap)
      ensures file.Missing? ==> snap == map[]
      ensures file.Unreadable? || (file.Lines? && !file.whole) ==> snap == old(snap) && changed == []
      ensures EachOnce(changed, Changed(old(snap), snap))
      ensures forall id :: id in changed <==> id in snap && (id !in old(snap) || old(snap)[id] != snap[id])
    {
      var next, ok := LoadIssuesSnapshot(file, decode);
      if !ok {
        return [];
      }
      changed := DiffSnapshots(snap, next);
      snap := next;
    }
  }

  // Over a run. A run is its successful readings: the seed first, then one per flush.

  /** The id is there with that value in every reading from k on. */
  ghost predicate HoldsFrom(readings: seq<Snapshot>, id: string, value: string, k: nat) {
    forall j | k <= j < |readings| :: id in readings[j] && readings[j][id] == value
  }

  /** Where the run of the id's current value begins. */
  function RunStart(readings: seq<Snapshot>, id: string): (k: nat)
    requires readings != [] && id in readings[|readings| - 1]
    ensures k < |readings|
  {
    var n := |readings| - 1;
    if n > 0 && id in readings[n - 1] && readings[n - 1][id] == readings[n][id] then RunStart(readings[..n], id) else n
  }

  /** Flush number k reported the id. */
  predicate ReportedBy(readings: seq<Snapshot>, id: string, k: nat) {
    0 < k < |readings| && id in Changed(readings[k - 1], readings[k])
  }

  /** Every id of the current snapshot was reported by the flush that first saw its current
      value, and by none since; it went unreported only if it has had the seed's value all
      along. */
  lemma {:induction false} ReportedWhenItsRunBegan(readings: seq<Snapshot>, id: string)
    requires readings != [] && id in readings[|readings| - 1]
    ensures var k := RunStart(readings, id);
            && HoldsFrom(readings, id, readings[|readings| - 1][id], k)
            && (k == 0 || ReportedBy(readings, id, k))
            && forall j | k < j < |readings| :: !ReportedBy(readings, id, j)
    ensures id !in readings[0] || readings[0][id] != readings[|readings| - 1][id] ==>
              ReportedBy(readings, id, RunStart(readings, id))
  {
    var n := |readings| - 1;
    if n > 0 && id in readings[n - 1] && readings[n - 1][id] == readings[n][id] {
      var front := readings[..n];
      ReportedWhenItsRunBegan(front, id);
      var k := RunStart(front, id);
      assert HoldsFrom(readings, id, readings[n][id], k) by {
        forall j | k <= j < |readings| ensures id in readings[j] && readings[j][id] == readings[n][id] {
          assert j < n ==> front[j] == readings[j];
        }
      }
      forall j | k < j < |readings| ensures !ReportedBy(readings, id, j) {
        if j < n {
          assert front[j] == readings[j] && front[j - 1] == readings[j - 1];
          assert !ReportedBy(front, id, j);
        }
      }
    }
  }

  /** What a listener knows that starts from the seed and, at each report, takes the reported
      ids' values. */
  function Listener(readings: seq<Snapshot>): Snapshot
    requires readings != []
  {
    var n := |readings| - 1;
    if n == 0 then readings[0] else
      var known := Listener(readings[..n]);
      known + (map id | id in Changed(readings[n - 1], readings[n]) :: readings[n][id])
  }

  /** The id's value in the latest reading that has it. */
  ghost predicate LastSeen(readings: seq<Snapshot>, id: string, value: string, j: nat) {
    && j < |readings| && id in readings[j] && readings[j][id] == value
    && forall i | j < i < |readings| :: id !in readings[i]
  }

  /** Reporting changes is enough: the listener is right about every id the file has, and about
      an id the file lost it keeps the last value, since deletions are never reported. */
  lemma {:induction false} ListenerIsUpToDate(readings: seq<Snapshot>, id: string)
    requires readings != []
    ensures id in Listener(readings) <==> exists j: nat :: j < |readings| && id in readings[j]
    ensures id in Listener(readings) ==> exists j :: LastSeen(readings, id, Listener(readings)[id], j)
    ensures id in readings[|readings| - 1] ==>
              id in Listener(readings) && Listener(readings)[id] == readings[|readings| - 1][id]
  {
    var n := |readings| - 1;
    if id in readings[n] {
      assert n > 0 ==> readings[..n][n - 1] == readings[n - 1];
      if n > 0 && id in readings[n - 1] {
        ListenerIsUpToDate(readings[..n], id);
      }
      assert LastSeen(readings, id, Listener(readings)[id], n);
    } else if n > 0 {
      var front := readings[..n];
      ListenerIsUpToDate(front, id);
      assert forall j | 0 <= j < n :: front[j] == readings[j];
      if id in Listener(front) {
        var j :| LastSeen(front, id, Listener(front)[id], j);
        assert LastSeen(readings, id, Listener(readings)[id], j);
      }
    }
  }

  /** A missing file reads as an empty one, so when it comes back every row is reported again,
      changed or not. */
  lemma ReappearingFileIsReportedWhole(readings: seq<Snapshot>, back: File, decode: Decoder, id: string)
    requires id in Loaded(back, decode)
    ensures ReportedBy(readings + [Loaded(Missing, decode), Loaded(back, decode)], id, |readings| + 1)
  {
    var run := readings + [Loaded(Missing, decode), Loaded(back, decode)];
    assert run[|readings|] == map[] && run[|readings| + 1] == Loaded(back, decode);
  }

  // In plain terms

  /** A line counts as a row for an id when it begins with a brace, decodes, and has that id, which is
      not empty. */
  lemma RowMeans(line: string, decode: Decoder, id: string)
    ensures RowFor(line, decode, id) <==>
              && line != "" && line[0] == '{' && decode(line).Some? && decode(line).value.id == id && id != ""
  {
  }

  /** A snapshot line by line: a row sets its id's timestamp, any other line changes nothing. */
  lemma SnapshotLaw(lines: seq<string>, line: string, decode: Decoder)
    ensures Rows([], decode) == map[]
    ensures Rows(lines + [line], decode) ==
              if line != "" && line[0] == '{' && decode(line).Some? && decode(line).value.id != ""
              then Rows(lines, decode)[decode(line).value.id := decode(line).value.updatedAt]
              else Rows(lines, decode)
    ensures forall whole :: Loaded(Lines(lines, whole), decode) == Rows(lines, decode)
  {
    assert (lines + [line])[..|lines|] == lines;
  }
}
