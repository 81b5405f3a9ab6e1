/** The cache of internal/auth/verifier.go under concurrent Verify calls and atomic
    replacement of the hash file. A step is one system call, one critical section of the
    mutex, or one replacement of the file. */
module VerifierProtocol {
  import opened Outcomes

  /** What the path holds between two replacements. `hash` is what ReadHash makes of the file:
      its trimmed contents, "" when it is blank or cannot be read. */
  datatype Version = Absent | File(mtime: int, hash: string)

  function HashIn(v: Version): string {
    if v.File? then v.hash else ""
  }

  /** Where a Verify call is. `stat`, `read` and `from` are indices into the versions. */
  datatype Call =
    | Started
    | Missing                                      // Stat failed; about to clear
    | Statted(stat: nat)                           // about to test for a change
    | Reading(stat: nat)                           // changed; about to read
    | Read(stat: nat, read: nat, got: string)      // about to store what it read
    | Refreshed                                    // about to take the cached hash
    | Done(hash: string, from: nat)

  /** `hashFrom` and `mtimeFrom` are history: the versions the cached fields came from. */
  datatype State = State(
    versions: seq<Version>, hash: string, mtime: int, hashFrom: nat, mtimeFrom: nat, calls: seq<Call>)

  datatype Action =
    | Replace(v: Version)
    | Begin
    | Stat(c: nat)
    | Test(c: nat)
    | ReadFile(c: nat)
    | Store(c: nat)
    | Take(c: nat)

  function Initial(v: Version): State {
    State([v], "", 0, 0, 0, [])
  }

  function Current(st: State): nat
    requires st.versions != []
  {
    |st.versions| - 1
  }

  predicate Enabled(st: State, a: Action) {
    st.versions != [] &&
    match a
    case Replace(_) => true
    case Begin => true
    case Stat(c) => c < |st.calls| && st.calls[c].Started?
    case Test(c) => c < |st.calls| && st.calls[c].Statted? && st.calls[c].stat < |st.versions|
                    && st.versions[st.calls[c].stat].File?
    case ReadFile(c) => c < |st.calls| && st.calls[c].Reading?
    case Store(c) => c < |st.calls| && (st.calls[c].Missing? || (st.calls[c].Read?
                     && st.calls[c].stat < |st.versions| && st.versions[st.calls[c].stat].File?))
    case Take(c) => c < |st.calls| && st.calls[c].Refreshed?
  }

  /** ModTime().Equal(h.mtime) && h.hash != "". */
  predicate Unchanged(hash: string, mtime: int, statMtime: int) {
    statMtime == mtime && hash != ""
  }

  /** The cached pair does not contradict the file: same mtime, same content. */
  predicate Coherent(hash: string, mtime: int, file: Version) {
    file.File? && Unchanged(hash, mtime, file.mtime) ==> hash == file.hash
  }

  function Apply(st: State, a: Action): State
    requires Enabled(st, a)
  {
    match a
    case Replace(v) => st.(versions := st.versions + [v])
    case Begin => st.(calls := st.calls + [Started])
    case Stat(c) =>
      st.(calls := st.calls[c := if st.versions[Current(st)].Absent? then Missing else Statted(Current(st))])
    case Test(c) =>
      var v := st.calls[c].stat;
      st.(calls := st.calls[c := if Unchanged(st.hash, st.mtime, st.versions[v].mtime) then Refreshed else Reading(v)])
    case ReadFile(c) =>
      st.(calls := st.calls[c := Read(st.calls[c].stat, Current(st), HashIn(st.versions[Current(st)]))])
    case Store(c) =>
      var done := st.(calls := st.calls[c := Refreshed]);
      if st.calls[c].Missing? then done.(hash := "", mtime := 0)
      else
        var Read(v, w, got) := st.calls[c];
        done.(hash := got, mtime := st.versions[v].mtime, hashFrom := w, mtimeFrom := v)
    case Take(c) => st.(calls := st.calls[c := Done(st.hash, st.hashFrom)])
  }

  function Exec(st: State, actions: seq<Action>): Option<State> {
    if actions == [] then Some(st) else
      var n := |actions| - 1;
      var mid := Exec(st, actions[..n]);
      if mid.Some? && Enabled(mid.value, actions[n]) then Some(Apply(mid.value, actions[n])) else None
  }

  ghost predicate Reachable(st: State) {
    exists v, actions :: Exec(Initial(v), actions) == Some(st)
  }

  // What holds in every reachable state

  /** No two replacements left the same mtime: what the cache relies on. */
  ghost predicate DistinctMtimes(versions: seq<Version>) {
    forall i, j | 0 <= i < j < |versions| && versions[i].File? && versions[j].File? ::
      versions[i].mtime != versions[j].mtime
  }

  /** A non-empty cached hash is the content of a version no older than the one whose mtime
      is cached beside it. */
  predicate CacheInv(st: State) {
    st.hash != "" ==>
      && st.mtimeFrom <= st.hashFrom < |st.versions|
      && st.versions[st.mtimeFrom].File? && st.mtime == st.versions[st.mtimeFrom].mtime
      && st.hash == HashIn(st.versions[st.hashFrom])
  }

  predicate CallInv(st: State, call: Call) {
    match call
    case Statted(v) => v < |st.versions| && st.versions[v].File?
    case Reading(v) => v < |st.versions| && st.versions[v].File?
    case Read(v, w, got) => v <= w < |st.versions| && st.versions[v].File? && got == HashIn(st.versions[w])
    case Done(h, from) => h != "" ==> from < |st.versions| && h == HashIn(st.versions[from])
    case _ => true
  }

  ghost predicate Inv(st: State) {
    && st.versions != [] && CacheInv(st)
    && forall c | 0 <= c < |st.calls| :: CallInv(st, st.calls[c])
  }

  lemma InvStep(st: State, a: Action)
    requires Inv(st) && Enabled(st, a)
    ensures Inv(Apply(st, a))
  {
    var next := Apply(st, a);
    forall c | 0 <= c < |next.calls| ensures CallInv(next, next.calls[c]) {
      if c < |st.calls| {
        assert CallInv(st, st.calls[c]);
      }
    }
    if a.Store? {
      assert CallInv(st, st.calls[a.c]);
    }
  }

  lemma {:induction false} ExecInv(st: State, actions: seq<Action>)
    requires Inv(st) && Exec(st, actions).Some?
    ensures Inv(Exec(st, actions).value)
  {
    if actions != [] {
      var n := |actions| - 1;
      ExecInv(st, actions[..n]);
      InvStep(Exec(st, actions[..n]).value, actions[n]);
    }
  }

  lemma ReachableInv(st: State)
    requires Reachable(st)
    ensures Inv(st)
  {
    var v, actions :| Exec(Initial(v), actions) == Some(st);
    ExecInv(Initial(v), actions);
  }

  /** When a call's "unchanged" test passes, and mtimes are not reused, the cached hash is at
      least as new as the version the call looked at. */
  lemma UnchangedMeansAtLeastAsNew(st: State, c: nat)
    requires Reachable(st) && DistinctMtimes(st.versions)
    requires Enabled(st, Test(c)) && Apply(st, Test(c)).calls[c].Refreshed?
    ensures st.mtimeFrom == st.calls[c].stat <= st.hashFrom < |st.versions|
    ensures st.hash == HashIn(st.versions[st.hashFrom]) != ""
  {
    ReachableInv(st);
  }

  // When a replacement takes effect

  /** No call still holds, unstored, a hash it read from a version older than `v`. */
  predicate NothingStale(st: State, v: nat) {
    forall c | 0 <= c < |st.calls| && st.calls[c].Read? && st.calls[c].got != "" :: v <= st.calls[c].read
  }

  predicate FromOrEmpty(hash: string, from: nat, v: nat) {
    hash == "" || v <= from
  }

  /** What holds from a moment with nothing stale on: of the calls begun since then (those from
      index `n`), each that has refreshed leaves a cache from `v` or newer, or an empty one. */
  predicate Rotated(st: State, v: nat, n: nat) {
    && v < |st.versions| && n <= |st.calls| && NothingStale(st, v)
    && forall c | n <= c < |st.calls| ::
         match st.calls[c]
         case Statted(s) => v <= s
         case Reading(s) => v <= s
         case Read(s, w, _) => v <= s <= w
         case Refreshed => FromOrEmpty(st.hash, st.hashFrom, v)
         case Done(h, from) => FromOrEmpty(h, from, v)
         case _ => true
  }

  lemma RotatedStep(st: State, a: Action, v: nat, n: nat)
    requires Inv(st) && DistinctMtimes(st.versions) && Enabled(st, a) && Rotated(st, v, n)
    ensures Rotated(Apply(st, a), v, n)
  {
    var next := Apply(st, a);
    match a
    case Store(c) => assert CallInv(st, st.calls[c]);
    case Test(c) => assert CallInv(st, st.calls[c]);
    case _ =>
  }

  lemma {:induction false} VersionsGrow(st: State, actions: seq<Action>)
    requires Exec(st, actions).Some?
    ensures st.versions <= Exec(st, actions).value.versions
  {
    if actions != [] {
      VersionsGrow(st, actions[..|actions| - 1]);
    }
  }

  lemma DistinctBefore(versions: seq<Version>, longer: seq<Version>)
    requires versions <= longer && DistinctMtimes(longer)
    ensures DistinctMtimes(versions)
  {
    assert forall i | 0 <= i < |versions| :: versions[i] == longer[i];
  }

  lemma {:induction false} RotatedRun(st: State, actions: seq<Action>, v: nat, n: nat)
    requires Inv(st) && Rotated(st, v, n) && Exec(st, actions).Some?
    requires DistinctMtimes(Exec(st, actions).value.versions)
    ensures Rotated(Exec(st, actions).value, v, n)
  {
    if actions != [] {
      var k := |actions| - 1;
      var mid := Exec(st, actions[..k]).value;
      DistinctBefore(mid.versions, Exec(st, actions).value.versions);
      RotatedRun(st, actions[..k], v, n);
      ExecInv(st, actions[..k]);
      RotatedStep(mid, actions[k], v, n);
    }
  }

  /** Call `c`, at the end of a run, uses a hash of version `v` or a later one, or finds none. */
  predicate UsesFrom(end: State, c: nat, v: nat) {
    c < |end.calls| && end.calls[c].Done? ==> FromOrEmpty(end.calls[c].hash, end.calls[c].from, v)
  }

  /** So does every call begun after `st`, in every continuation that reuses no mtime. */
  ghost predicate LaterCallsUseCurrent(st: State)
    requires st.versions != []
  {
    forall actions, c: nat ::
      Exec(st, actions).Some? && DistinctMtimes(Exec(st, actions).value.versions) && |st.calls| <= c ==>
        UsesFrom(Exec(st, actions).value, c, Current(st))
  }

  lemma Extend(st0: State, trace: seq<Action>, st: State, a: Action) returns (longer: seq<Action>)
    requires Exec(st0, trace) == Some(st) && Enabled(st, a)
    ensures longer == trace + [a] && Exec(st0, longer) == Some(Apply(st, a))
  {
    longer := trace + [a];
    assert longer[..|longer| - 1] == trace;
  }

  // A call with no other step during it

  /** The steps call `c` takes itself, after it began. */
  predicate StepOf(a: Action, c: nat) {
    a == Stat(c) || a == Test(c) || a == ReadFile(c) || a == Store(c) || a == Take(c)
  }

  /** Where call `c` can be when only it has moved since `st0`, which it began in. */
  predicate Alone(st0: State, st: State, c: nat) {
    && st0.versions != [] && st.versions == st0.versions && c < |st.calls|
    && var file := st0.versions[Current(st0)];
       var untouched := st.hash == st0.hash && st.mtime == st0.mtime;
       match st.calls[c]
       case Started => untouched
       case Missing => file.Absent? && untouched
       case Statted(s) => s == Current(st0) && file.File? && untouched
       case Reading(s) => s == Current(st0) && file.File? && !Unchanged(st0.hash, st0.mtime, file.mtime)
       case Read(_, _, got) => got == HashIn(file) && file.File? && !Unchanged(st0.hash, st0.mtime, file.mtime)
       case Refreshed => st.hash == HashIn(file) <==> Coherent(st0.hash, st0.mtime, file)
       case Done(h, _) => h == HashIn(file) <==> Coherent(st0.hash, st0.mtime, file)
  }

  lemma AloneStep(st0: State, st: State, c: nat, a: Action)
    requires Alone(st0, st, c) && StepOf(a, c) && Enabled(st, a)
    ensures Alone(st0, Apply(st, a), c)
  {
  }

  lemma {:induction false} AloneRun(st0: State, actions: seq<Action>)
    requires st0.versions != [] && Exec(Apply(st0, Begin), actions).Some?
    requires forall a | a in actions :: StepOf(a, |st0.calls|)
    ensures Alone(st0, Exec(Apply(st0, Begin), actions).value, |st0.calls|)
  {
    if actions != [] {
      var k := |actions| - 1;
      assert actions[k] in actions && forall a | a in actions[..k] :: a in actions;
      AloneRun(st0, actions[..k]);
      AloneStep(st0, Exec(Apply(st0, Begin), actions[..k]).value, |st0.calls|, actions[k]);
    }
  }

  /** However a call is begun and finished with no step but its own, it ends with the current
      version's hash exactly when the cache did not contradict that version. */
  lemma LoneCallIsExactIffCoherent(st: State, actions: seq<Action>)
    requires st.versions != [] && Exec(Apply(st, Begin), actions).Some?
    requires forall a | a in actions :: StepOf(a, |st.calls|)
    ensures var end := Exec(Apply(st, Begin), actions).value;
            && end.versions == st.versions && |st.calls| < |end.calls|
            && (end.calls[|st.calls|].Done? ==>
                  (end.calls[|st.calls|].hash == HashIn(st.versions[Current(st)])
                   <==> Coherent(st.hash, st.mtime, st.versions[Current(st)])))
  {
    AloneRun(st, actions);
  }

  /** Being coherent, spelled out: the cache is right about the file, or would not be used for it. */
  lemma CoherentMeans(hash: string, mtime: int, file: Version)
    ensures Coherent(hash, mtime, file) <==> file.Absent? || file.hash == hash || file.mtime != mtime || hash == ""
  {
  }

  /** Without reused mtimes the cache is coherent with the current file in every reachable state,
      whatever calls and replacements led there. */
  lemma ReachableCacheIsCoherent(st: State)
    requires Reachable(st) && DistinctMtimes(st.versions)
    ensures st.versions != []
    ensures Coherent(st.hash, st.mtime, st.versions[Current(st)])
  {
    ReachableInv(st);
  }

  /** So then an undisturbed call ends with exactly the current version's hash. */
  lemma LoneCallIsExact(st: State, actions: seq<Action>)
    requires Reachable(st) && DistinctMtimes(st.versions) && Exec(Apply(st, Begin), actions).Some?
    requires forall a | a in actions :: StepOf(a, |st.calls|)
    ensures st.versions != []
    ensures var end := Exec(Apply(st, Begin), actions).value;
            && end.versions == st.versions && |st.calls| < |end.calls|
            && (end.calls[|st.calls|].Done? ==> end.calls[|st.calls|].hash == HashIn(st.versions[Current(st)]))
  {
    ReachableCacheIsCoherent(st);
    LoneCallIsExactIffCoherent(st, actions);
  }

  function StepsLeft(call: Call): nat {
    match call
    case Started => 4
    case Statted(_) => 3
    case Reading(_) => 2
    case Read(_, _, _) => 1
    case Missing => 1
    case _ => 0
  }

  function NextStep(call: Call, c: nat): Action {
    match call
    case Started => Stat(c)
    case Statted(_) => Test(c)
    case Reading(_) => ReadFile(c)
    case _ => Store(c)
  }

  lemma LoneStep(st0: State, st: State)
    requires Inv(st) && Moving(st0, st)
    ensures var c := |st.calls| - 1; var a := NextStep(st.calls[c], c);
            StepOf(a, c) && Enabled(st, a) &&
            var next := Apply(st, a);
            && Inv(next) && Alone(st0, next, c) && |next.calls| == |st.calls|
            && next.calls == st.calls[..c] + [next.calls[c]] && StepsLeft(next.calls[c]) < StepsLeft(st.calls[c])
            && (next.calls[c].Refreshed? || StepsLeft(next.calls[c]) > 0)
  {
    var c := |st.calls| - 1;
    assert CallInv(st, st.calls[c]);
    InvStep(st, NextStep(st.calls[c], c));
  }

  /** The last call, which has seen nothing but the current version, is about to move. */
  predicate Moving(st0: State, st: State) {
    st.calls != [] && Alone(st0, st, |st.calls| - 1) && StepsLeft(st.calls[|st.calls| - 1]) > 0
  }

  predicate OwnSteps(trace: seq<Action>, c: nat) {
    forall a | a in trace :: StepOf(a, c)
  }

  lemma OneMoreOwn(trace: seq<Action>, a: Action, c: nat)
    requires OwnSteps(trace, c) && StepOf(a, c)
    ensures OwnSteps(trace + [a], c)
  {
  }

  /** Runs the last call, alone, until its reload has returned. */
  lemma LoneRun(st0: State, origin: State, trace: seq<Action>, st: State, c: nat)
    returns (longer: seq<Action>, end: State)
    requires Inv(st) && Exec(origin, trace) == Some(st) && Moving(st0, st) && c == |st.calls| - 1 && OwnSteps(trace, c)
    ensures Exec(origin, longer) == Some(end) && Inv(end) && OwnSteps(longer, c)
    ensures end.calls == st.calls[..c] + [Refreshed] && Alone(st0, end, c)
    decreases StepsLeft(st.calls[c])
  {
    LoneStep(st0, st);
    var a := NextStep(st.calls[c], c);
    longer := Extend(origin, trace, st, a);
    OneMoreOwn(trace, a, c);
    end := Apply(st, a);
    if StepsLeft(end.calls[c]) > 0 {
      longer, end := LoneRun(st0, origin, longer, end, c);
    }
  }

  /** A call can always be begun and run alone until its reload has returned. */
  lemma LoneReload(st: State) returns (trace: seq<Action>, end: State)
    requires Inv(st)
    ensures Exec(Apply(st, Begin), trace) == Some(end) && Inv(end)
    ensures forall a | a in trace :: StepOf(a, |st.calls|)
    ensures end.calls == st.calls + [Refreshed] && Alone(st, end, |st.calls|)
  {
    var begun := Apply(st, Begin);
    InvStep(st, Begin);
    assert Exec(begun, []) == Some(begun);
    trace, end := LoneRun(st, begun, [], begun, |st.calls|);
    assert begun.calls[..|st.calls|] == st.calls;
  }

  /** So a lone call can always finish. */
  lemma LoneCallFinishes(st: State) returns (trace: seq<Action>)
    requires Inv(st)
    ensures forall a | a in trace :: StepOf(a, |st.calls|)
    ensures Exec(Apply(st, Begin), trace).Some? && Inv(Exec(Apply(st, Begin), trace).value)
    ensures var end := Exec(Apply(st, Begin), trace).value;
            |end.calls| == |st.calls| + 1 && end.calls[|st.calls|].Done?
  {
    var end: State;
    trace, end := LoneReload(st);
    InvStep(end, Take(|st.calls|));
    trace := Extend(Apply(st, Begin), trace, end, Take(|st.calls|));
  }

  lemma {:induction false} ExecTail(st: State, a: Action, actions: seq<Action>)
    requires Enabled(st, a) && Exec(Apply(st, a), actions).Some?
    ensures Exec(st, [a] + actions) == Exec(Apply(st, a), actions)
  {
    if actions == [] {
      assert ([a] + actions)[..0] == [];
    } else {
      var k := |actions| - 1;
      assert ([a] + actions)[..k + 1] == [a] + actions[..k];
      ExecTail(st, a, actions[..k]);
    }
  }

  /** Why mtimes must not be reused: a file is replaced by another with the same mtime, and the
      next call, alone, still ends with the old one's hash. */
  lemma SameMtimeHidesTheRotation(mtime: int, was: string, now: string) returns (st: State, trace: seq<Action>)
    requires was != "" && was != now
    ensures Reachable(st) && st.versions == [File(mtime, was), File(mtime, now)]
    ensures forall a | a in trace :: StepOf(a, |st.calls|)
    ensures Exec(Apply(st, Begin), trace).Some?
    ensures var end := Exec(Apply(st, Begin), trace).value;
            |st.calls| < |end.calls| && end.calls[|st.calls|].Done? && end.calls[|st.calls|].hash == was != now
  {
    var s0 := Initial(File(mtime, was));
    assert Exec(s0, []) == Some(s0) && Reachable(s0);
    var s1 := Apply(s0, Begin);
    var s2 := Apply(s1, Stat(0));
    var s3 := Apply(s2, Test(0));
    var s4 := Apply(s3, ReadFile(0));
    var s5 := Apply(s4, Store(0));
    st := Apply(s5, Replace(File(mtime, now)));
    var run := Extend(s0, [], s0, Begin);
    run := Extend(s0, run, s1, Stat(0));
    run := Extend(s0, run, s2, Test(0));
    run := Extend(s0, run, s3, ReadFile(0));
    run := Extend(s0, run, s4, Store(0));
    run := Extend(s0, run, s5, Replace(File(mtime, now)));
    trace := HiddenCall(st, was);
  }

  lemma HiddenCall(st: State, was: string) returns (trace: seq<Action>)
    requires st.versions != [] && was != "" && st.hash == was
    requires st.versions[Current(st)].File? && st.versions[Current(st)].mtime == st.mtime
    ensures forall a | a in trace :: StepOf(a, |st.calls|)
    ensures Exec(Apply(st, Begin), trace).Some?
    ensures var end := Exec(Apply(st, Begin), trace).value;
            |st.calls| < |end.calls| && end.calls[|st.calls|].Done? && end.calls[|st.calls|].hash == was
  {
    var c := |st.calls|;
    var s0 := Apply(st, Begin);
    var s1 := Apply(s0, Stat(c));
    var s2 := Apply(s1, Test(c));
    assert Exec(s0, []) == Some(s0);
    trace := Extend(s0, [], s0, Stat(c));
    trace := Extend(s0, trace, s1, Test(c));
    trace := Extend(s0, trace, s2, Take(c));
  }

  // The rotate-while-running contract

  /** A call alone, then the stale one's store, then the first one's take. */
  lemma StaleStoreWins(st: State, s: nat) returns (trace: seq<Action>)
    requires Inv(st) && s < |st.calls| && st.calls[s].Read? && st.calls[s].got != ""
    ensures Exec(st, trace).Some? && Exec(st, trace).value.versions == st.versions
    ensures var end := Exec(st, trace).value;
            |end.calls| == |st.calls| + 1 && end.calls[|st.calls|] == Done(st.calls[s].got, st.calls[s].read)
  {
    var c := |st.calls|;
    var own, mid := LoneReload(st);
    ExecTail(st, Begin, own);
    assert CallInv(st, st.calls[s]);
    trace := Extend(st, [Begin] + own, mid, Store(s));
    var stored := Apply(mid, Store(s));
    trace := Extend(st, trace, stored, Take(c));
  }

  /** The rotate-while-running contract, exactly: as long as no mtime is reused, a replacement
      takes effect for every later call if and only if no call is sitting on an older hash it has
      read but not stored. */
  lemma RotationTakesEffectIffNothingStale(st: State)
    requires Reachable(st) && DistinctMtimes(st.versions)
    ensures st.versions != []
    ensures LaterCallsUseCurrent(st) <==> NothingStale(st, Current(st))
  {
    ReachableInv(st);
    var v := Current(st);
    if NothingStale(st, v) {
      forall actions, c: nat |
        Exec(st, actions).Some? && DistinctMtimes(Exec(st, actions).value.versions) && |st.calls| <= c
        ensures UsesFrom(Exec(st, actions).value, c, v)
      {
        RotatedRun(st, actions, v, |st.calls|);
      }
    } else {
      var s: nat :| s < |st.calls| && st.calls[s].Read? && st.calls[s].got != "" && st.calls[s].read < v;
      var trace := StaleStoreWins(st, s);
      assert !UsesFrom(Exec(st, trace).value, |st.calls|, v);
    }
  }

  lemma DoneFromAbsent(st: State, v: nat, n: nat, c: nat)
    requires Inv(st) && Rotated(st, v, n) && n <= c < |st.calls| && st.calls[c].Done?
    requires forall i | v <= i < |st.versions| :: st.versions[i].Absent?
    ensures st.calls[c].hash == ""
  {
    assert CallInv(st, st.calls[c]);
  }

  /** After a deletion with nothing stale, and until a file is put back, later calls find no
      hash and so reject. */
  lemma DeletionTakesEffect(st: State, actions: seq<Action>, c: nat)
    requires Reachable(st) && DistinctMtimes(st.versions)
    requires st.versions[Current(st)].Absent? && NothingStale(st, Current(st))
    requires Exec(st, actions).Some?
    requires forall i | |st.versions| <= i < |Exec(st, actions).value.versions| ::
               Exec(st, actions).value.versions[i].Absent?
    requires |st.calls| <= c < |Exec(st, actions).value.calls| && Exec(st, actions).value.calls[c].Done?
    ensures Exec(st, actions).value.calls[c].hash == ""
  {
    ReachableInv(st);
    VersionsGrow(st, actions);
    RotatedRun(st, actions, Current(st), |st.calls|);
    ExecInv(st, actions);
    DoneFromAbsent(Exec(st, actions).value, Current(st), |st.calls|, c);
  }
}
