/** The watching daemon of cmd/gemba-bd-hook/watch.go, with the writer, the event queue, the
    debounce timer and the flushes it starts interleaving. A step is one write, one event, one
    critical section of the mutex, or one part of a flush. */
module WatchProtocol {
  import opened Outcomes
  import opened Watch

  /** Who has the mutex. Re-arming the timer is one step, so only flushes show here. */
  datatype Mutex = Free | Entered | Read

  /** One attempt to read the file: which version it met, and whether it worked. */
  datatype Attempt = Attempt(version: nat, ok: bool)

  datatype Op = Create | Modify | Rename | Remove | Chmod

  /** A notification from the watched directory, about the target or another file. */
  datatype Event = Event(atTarget: bool, ops: set<Op>)

  /** relevantEvent: a plain deletion, which is only a Remove, is not relevant. */
  predicate Relevant(ev: Event) {
    ev.atTarget && (Create in ev.ops || Modify in ev.ops || Rename in ev.ops)
  }

  predicate SomeRelevant(events: seq<Event>) {
    exists ev | ev in events :: Relevant(ev)
  }

  /** `events` are the notifications not yet received; `handling` says one that is relevant was
      received and the timer is about to be re-armed. `waiting` counts flushes that fired and wait
      for the mutex. `version` counts the changes of the file since the watch was added, and
      `announced` is the latest that a relevant event told of. History: `attempts` has every
      reading, `readings` the results of the seed and of each successful flush, `files` what the
      file was at each version, `from` the version the snapshot was read from, if a reading worked,
      and `due` says a relevant event was handled after the last attempt. */
  datatype State = State(
    file: File, version: nat, announced: nat, events: seq<Event>, seeded: bool, handling: bool, armed: bool,
    waiting: nat, mutex: Mutex, snap: Snapshot,
    attempts: seq<Attempt>, readings: seq<Snapshot>, files: seq<File>, from: Option<nat>, due: bool)

  datatype Action =
    | Write(file: File, burst: seq<Event>)
    | Unlink
    | Notice(ev: Event)
    | Seed(broken: bool)
    | Receive
    | Arm
    | Fire
    | Enter
    | Load(broken: bool)
    | Leave

  function Initial(file: File): State {
    State(file, 0, 0, [], false, false, false, 0, Free, map[], [], [], [file], None, false)
  }

  /** A write, or a rename over or away, is announced by at least one relevant event; more of
      either kind may come. `broken` stands for an input error that is no fault of the contents. */
  predicate Enabled(st: State, a: Action) {
    match a
    case Write(_, burst) => SomeRelevant(burst)
    case Unlink => true
    case Notice(_) => true
    case Seed(_) => !st.seeded
    case Receive => st.seeded && !st.handling && st.events != []
    case Arm => st.handling && st.mutex.Free?
    case Fire => st.armed
    case Enter => st.waiting > 0 && st.mutex.Free?
    case Load(_) => st.mutex.Entered?
    case Leave => st.mutex.Read?
  }

  function Apply(st: State, a: Action, decode: Decoder): State
    requires Enabled(st, a)
  {
    match a
    case Write(f, burst) =>
      st.(file := f, version := st.version + 1, announced := st.version + 1, events := st.events + burst,
          files := st.files + [f])
    case Unlink =>
      st.(file := Missing, version := st.version + 1, events := st.events + [Event(true, {Remove})],
          files := st.files + [Missing])
    case Notice(ev) => st.(events := st.events + [ev])
    case Seed(broken) =>
      var got := if broken then map[] else Loaded(st.file, decode);
      st.(seeded := true, snap := got, readings := [got],
          attempts := [Attempt(st.version, !broken && Readable(st.file))],
          from := if !broken && Readable(st.file) then Some(st.version) else None)
    case Receive => st.(events := st.events[1..], handling := Relevant(st.events[0]))
    case Arm => st.(handling := false, armed := true, due := true)
    case Fire => st.(armed := false, waiting := st.waiting + 1)
    case Enter => st.(waiting := st.waiting - 1, mutex := Entered)
    case Load(broken) =>
      var ok := !broken && Readable(st.file);
      var tried := st.(mutex := Read, due := false, attempts := st.attempts + [Attempt(st.version, ok)]);
      if !ok then tried else
        tried.(snap := Loaded(st.file, decode), readings := st.readings + [Loaded(st.file, decode)],
               from := Some(st.version))
    case Leave => st.(mutex := Free)
  }

  function Exec(st: State, actions: seq<Action>, decode: Decoder): Option<State> {
    if actions == [] then Some(st) else
      var n := |actions| - 1;
      var mid := Exec(st, actions[..n], decode);
      if mid.Some? && Enabled(mid.value, actions[n]) then Some(Apply(mid.value, actions[n], decode)) else None
  }

  ghost predicate Reachable(st: State, decode: Decoder) {
    exists file, actions :: Exec(Initial(file), actions, decode) == Some(st)
  }

  // What holds in every reachable state

  /** A flush will read the file after this point: it is armed, or it fired and waits, or it
      has the mutex and has not read yet. */
  predicate FlushComing(st: State) {
    st.armed || st.waiting > 0 || st.mutex.Entered?
  }

  /** The last attempt to read met version `v` or a later one. */
  predicate Tried(st: State, v: nat) {
    st.attempts != [] && v <= st.attempts[|st.attempts| - 1].version
  }

  /** Some attempt got the current version. */
  predicate GotCurrent(st: State) {
    Attempt(st.version, true) in st.attempts
  }

  /** Whoever handled an event is followed by a flush, and nothing happens before the seed. */
  predicate ServeInv(st: State) {
    && (st.due ==> FlushComing(st))
    && (!st.seeded ==> st.attempts == [] && st.mutex.Free? && !FlushComing(st) && !st.handling)
    && (st.seeded ==> st.attempts != [])
  }

  /** An announced change that was not tried yet is still on its way to the reader. */
  predicate TriedInv(st: State) {
    && (st.seeded && !Tried(st, st.announced) ==> SomeRelevant(st.events) || st.handling || st.due)
    && st.announced <= st.version && (st.announced < st.version ==> st.file.Missing?)
  }

  ghost predicate SnapInv(st: State, decode: Decoder) {
    && (st.seeded ==> st.readings != [] && st.snap == st.readings[|st.readings| - 1])
    && (forall i | 0 <= i < |st.attempts| :: st.attempts[i].version <= st.version)
    && (GotCurrent(st) ==> st.snap == Loaded(st.file, decode))
  }

  /** The snapshot is what the file held at the version it was read from, and that is the current
      version exactly when some attempt got that. */
  ghost predicate FromInv(st: State, decode: Decoder) {
    && |st.files| == st.version + 1 && st.files[st.version] == st.file
    && (st.from.Some? ==>
          && st.from.value <= st.version && Readable(st.files[st.from.value])
          && st.snap == Loaded(st.files[st.from.value], decode))
    && (HoldsCurrent(st) <==> GotCurrent(st))
    && (forall attempt | attempt in st.attempts :: attempt.version <= st.attempts[|st.attempts| - 1].version)
  }

  predicate HoldsCurrent(st: State) {
    st.from == Some(st.version)
  }

  ghost predicate Inv(st: State, decode: Decoder) {
    ServeInv(st) && TriedInv(st) && SnapInv(st, decode) && FromInv(st, decode)
  }

  lemma ServeStep(st: State, a: Action, decode: Decoder)
    requires ServeInv(st) && Enabled(st, a)
    ensures ServeInv(Apply(st, a, decode))
  {
  }

  lemma TriedStep(st: State, a: Action, decode: Decoder)
    requires ServeInv(st) && TriedInv(st) && Enabled(st, a)
    requires forall i | 0 <= i < |st.attempts| :: st.attempts[i].version <= st.version
    ensures TriedInv(Apply(st, a, decode))
  {
    match a
    case Write(_, burst) => MoreEvents(st.events, burst);
    case Unlink => MoreEvents(st.events, [Event(true, {Remove})]);
    case Notice(ev) => MoreEvents(st.events, [ev]);
    case Receive => OneEventLess(st.events);
    case Load(broken) => TriedLoad(st, broken, decode);
    case _ =>
  }

  lemma TriedLoad(st: State, broken: bool, decode: Decoder)
    requires TriedInv(st) && Enabled(st, Load(broken))
    ensures Tried(Apply(st, Load(broken), decode), st.version)
  {
  }

  lemma SnapStep(st: State, a: Action, decode: Decoder)
    requires ServeInv(st) && SnapInv(st, decode) && Enabled(st, a)
    ensures SnapInv(Apply(st, a, decode), decode)
  {
    var next := Apply(st, a, decode);
    if a.Write? || a.Unlink? {
      assert forall i | 0 <= i < |st.attempts| :: st.attempts[i].version != next.version;
    } else if a.Load? && GotCurrent(next) && !next.attempts[|st.attempts|].ok {
      assert GotCurrent(st);
    }
  }

  lemma FromChanged(st: State, a: Action, decode: Decoder)
    requires SnapInv(st, decode) && FromInv(st, decode) && Enabled(st, a) && (a.Write? || a.Unlink?)
    ensures FromInv(Apply(st, a, decode), decode)
  {
    var next := Apply(st, a, decode);
    assert forall i | 0 <= i < |st.attempts| :: st.attempts[i].version != next.version;
    assert next.files[..st.version + 1] == st.files;
  }

  lemma FromLoad(st: State, broken: bool, decode: Decoder)
    requires SnapInv(st, decode) && FromInv(st, decode) && Enabled(st, Load(broken))
    ensures FromInv(Apply(st, Load(broken), decode), decode)
  {
    var next := Apply(st, Load(broken), decode);
    var last := Attempt(st.version, !broken && Readable(st.file));
    assert next.attempts == st.attempts + [last];
    assert forall attempt | attempt in st.attempts :: attempt.version <= st.version;
    assert last.ok ==> Attempt(st.version, true) in next.attempts;
  }

  lemma FromStep(st: State, a: Action, decode: Decoder)
    requires ServeInv(st) && SnapInv(st, decode) && FromInv(st, decode) && Enabled(st, a)
    ensures FromInv(Apply(st, a, decode), decode)
  {
    match a
    case Write(_, _) => FromChanged(st, a, decode);
    case Unlink => FromChanged(st, a, decode);
    case Load(broken) => FromLoad(st, broken, decode);
    case Seed(broken) => assert Attempt(st.version, !broken && Readable(st.file)) == Apply(st, a, decode).attempts[0];
    case _ =>
  }

  lemma InvStep(st: State, a: Action, decode: Decoder)
    requires Inv(st, decode) && Enabled(st, a)
    ensures Inv(Apply(st, a, decode), decode)
  {
    ServeStep(st, a, decode);
    TriedStep(st, a, decode);
    SnapStep(st, a, decode);
    FromStep(st, a, decode);
  }

  lemma MoreEvents(events: seq<Event>, burst: seq<Event>)
    ensures SomeRelevant(events + burst) <==> SomeRelevant(events) || SomeRelevant(burst)
  {
  }

  lemma OneEventLess(events: seq<Event>)
    requires events != []
    ensures SomeRelevant(events) <==> Relevant(events[0]) || SomeRelevant(events[1..])
  {
    MoreEvents([events[0]], events[1..]);
    assert events == [events[0]] + events[1..];
  }

  lemma {:induction false} ExecInv(file: File, actions: seq<Action>, decode: Decoder)
    requires Exec(Initial(file), actions, decode).Some?
    ensures Inv(Exec(Initial(file), actions, decode).value, decode)
  {
    if actions == [] {
    } else {
      var n := |actions| - 1;
      ExecInv(file, actions[..n], decode);
      InvStep(Exec(Initial(file), actions[..n], decode).value, actions[n], decode);
    }
  }

  lemma ReachableInv(st: State, decode: Decoder)
    requires Reachable(st, decode)
    ensures Inv(st, decode)
  {
    var file, actions :| Exec(Initial(file), actions, decode) == Some(st);
    ExecInv(file, actions, decode);
  }

  /** No event is lost to the re-arming: if one was handled after the last reading, the timer is
      armed or a flush that fired will still read. */
  lemma HandledEventsAreServed(st: State, decode: Decoder)
    requires Reachable(st, decode) && st.due
    ensures st.armed || st.waiting > 0 || st.mutex.Entered?
  {
    ReachableInv(st, decode);
  }

  /** Nothing is queued, armed, waiting or being done. */
  predicate AtRest(st: State) {
    st.seeded && st.events == [] && !st.handling && !FlushComing(st) && st.mutex.Free?
  }

  /** At rest the file has been looked at since its last announced change. Unless it was deleted
      after that, the only way to be behind is that every look at it failed. */
  lemma AtRestTheFileWasTried(st: State, decode: Decoder)
    requires Reachable(st, decode) && AtRest(st)
    ensures Tried(st, st.announced)
    ensures GotCurrent(st) ==> st.snap == Loaded(st.file, decode)
    ensures st.announced < st.version ==> st.file.Missing?
    ensures st.announced == st.version && !GotCurrent(st) ==> Attempt(st.version, false) in st.attempts
  {
    ReachableInv(st, decode);
    var last := st.attempts[|st.attempts| - 1];
    assert last in st.attempts;
    if st.announced == st.version {
      assert !last.ok ==> last == Attempt(st.version, false);
      assert last.ok ==> last == Attempt(st.version, true);
    }
  }

  /** Deleted after its last announced change, and not looked at since. */
  predicate Unseen(st: State) {
    st.file.Missing? && st.announced < st.version && !Tried(st, st.version)
  }

  /** Looked at, and every look at the current version failed. */
  predicate OnlyFailed(st: State) {
    Attempt(st.version, false) in st.attempts && !GotCurrent(st)
  }

  /** At rest the snapshot is the current version's, except in exactly two cases: the file was
      deleted unannounced and not looked at since, or every look at it failed. */
  lemma AtRestHoldsCurrentIff(st: State, decode: Decoder)
    requires Reachable(st, decode) && AtRest(st)
    ensures HoldsCurrent(st) <==> !Unseen(st) && !OnlyFailed(st)
    ensures HoldsCurrent(st) ==> st.snap == Loaded(st.file, decode)
    ensures st.from.Some? ==> st.from.value < |st.files| && st.snap == Loaded(st.files[st.from.value], decode)
  {
    ReachableInv(st, decode);
    var last := st.attempts[|st.attempts| - 1];
    assert last in st.attempts && last.version <= st.version;
    if GotCurrent(st) {
      assert Attempt(st.version, true).version <= last.version;
    } else if last.version == st.version {
      assert last == Attempt(st.version, false);
    } else {
      AtRestTheFileWasTried(st, decode);
    }
  }

  /** At rest, with the current version read, a listener knows every row of the file as it is
      now. */
  lemma AtRestTheListenerKnows(st: State, decode: Decoder, id: string)
    requires Reachable(st, decode) && AtRest(st) && GotCurrent(st) && id in Loaded(st.file, decode)
    ensures st.readings != [] && id in Listener(st.readings)
    ensures Listener(st.readings)[id] == Loaded(st.file, decode)[id]
  {
    ReachableInv(st, decode);
    LastReadingKnown(st.readings, id);
  }

  lemma LastReadingKnown(readings: seq<Snapshot>, id: string)
    requires readings != [] && id in readings[|readings| - 1]
    ensures id in Listener(readings) && Listener(readings)[id] == readings[|readings| - 1][id]
  {
    ListenerIsUpToDate(readings, id);
  }

  // Coming to rest

  predicate Internal(a: Action) {
    a.Receive? || a.Arm? || a.Fire? || a.Enter? || a.Load? || a.Leave?
  }

  function Work(st: State): nat {
    6 * |st.events| + (if st.handling then 5 else 0) + (if st.armed then 4 else 0) + 3 * st.waiting
    + (match st.mutex case Free => 0 case Entered => 2 case Read => 1)
  }

  /** While it is not at rest the daemon can take a step, and each of its own steps leaves less
      to do: once the writes stop, it comes to rest. */
  lemma UnsettledCanMove(st: State, decode: Decoder) returns (a: Action)
    requires Reachable(st, decode) && st.seeded && !AtRest(st)
    ensures Internal(a) && Enabled(st, a) && Work(Apply(st, a, decode)) < Work(st)
  {
    ReachableInv(st, decode);
    if st.mutex.Entered? {
      a := Load(false);
    } else if st.mutex.Read? {
      a := Leave;
    } else if st.handling {
      a := Arm;
    } else if st.events != [] {
      a := Receive;
    } else if st.armed {
      a := Fire;
    } else {
      a := Enter;
    }
  }

  lemma {:induction false} InternalRunsEnd(st: State, actions: seq<Action>, decode: Decoder)
    requires Exec(st, actions, decode).Some? && forall a | a in actions :: Internal(a)
    ensures |actions| + Work(Exec(st, actions, decode).value) <= Work(st)
  {
    if actions == [] {
    } else {
      var n := |actions| - 1;
      assert forall a | a in actions[..n] :: a in actions;
      InternalRunsEnd(st, actions[..n], decode);
      assert Internal(actions[n]);
    }
  }

  /** A failed reading is not retried: an unreadable moment during the last flush leaves the
      daemon at rest with an old snapshot. */
  lemma FailedLastReadStaysBehind(was: File, now: File, decode: Decoder) returns (st: State)
    requires Loaded(was, decode) != Loaded(now, decode)
    ensures Reachable(st, decode) && AtRest(st) && st.file == now
    ensures st.snap == Loaded(was, decode) != Loaded(st.file, decode)
  {
    assert Exec(Initial(was), [], decode) == Some(Initial(was));
    st := Extended(Initial(was), Seed(false), decode);
    var created := Event(true, {Create});
    assert created in [created] && Relevant(created);
    st := Extended(st, Write(now, [created]), decode);
    st := FlushCycle(st, true, decode);
  }

  /** A plain deletion is not noticed: the daemon is at rest with the rows of a file that is gone,
      without having looked at it since. */
  lemma DeletionGoesUnnoticed(was: File, decode: Decoder) returns (st: State)
    requires Loaded(was, decode) != map[]
    ensures Reachable(st, decode) && AtRest(st) && st.file.Missing? && !Tried(st, st.version)
    ensures st.snap == Loaded(was, decode) != Loaded(st.file, decode)
  {
    assert Exec(Initial(was), [], decode) == Some(Initial(was));
    st := Extended(Initial(was), Seed(false), decode);
    st := Extended(st, Unlink, decode);
    st := Extended(st, Receive, decode);
  }

  /** One event, from its arrival to the end of its flush. */
  lemma FlushCycle(st: State, broken: bool, decode: Decoder) returns (end: State)
    requires Reachable(st, decode) && |st.events| == 1 && Relevant(st.events[0])
    requires st.seeded && !st.handling && !st.armed && st.waiting == 0 && st.mutex.Free?
    ensures Reachable(end, decode) && AtRest(end) && end.file == st.file
    ensures broken ==> end.snap == st.snap
  {
    end := Extended(st, Receive, decode);
    end := Extended(end, Arm, decode);
    end := Extended(end, Fire, decode);
    end := Extended(end, Enter, decode);
    end := Extended(end, Load(broken), decode);
    end := Extended(end, Leave, decode);
  }

  lemma Extended(st: State, a: Action, decode: Decoder) returns (next: State)
    requires Reachable(st, decode) && Enabled(st, a)
    ensures next == Apply(st, a, decode) && Reachable(next, decode)
  {
    next := Apply(st, a, decode);
    var file, run :| Exec(Initial(file), run, decode) == Some(st);
    assert (run + [a])[..|run|] == run;
    assert Exec(Initial(file), run + [a], decode) == Some(next);
  }

  // In plain terms

  /** A notification leads to a reading exactly when it is about the target and says it was created,
      written or renamed; any other is dropped. */
  lemma ReceiveLaw(st: State, decode: Decoder)
    requires Enabled(st, Receive)
    ensures var ev := st.events[0]; var next := Apply(st, Receive, decode);
            && next.events == st.events[1..]
            && (next.handling <==> ev.atTarget && ev.ops * {Create, Modify, Rename} != {})
  {
    var ops := st.events[0].ops;
    if Create in ops {
      assert Create in ops * {Create, Modify, Rename};
    } else if Modify in ops {
      assert Modify in ops * {Create, Modify, Rename};
    } else if Rename in ops {
      assert Rename in ops * {Create, Modify, Rename};
    }
  }

  /** A handled event always leaves the timer armed, a timer always fires a flush, and a flush reads:
      a reading that works replaces the snapshot, one that fails leaves it. */
  lemma FlushLaw(st: State, broken: bool, decode: Decoder)
    ensures Enabled(st, Arm) ==> Apply(st, Arm, decode).armed && Apply(st, Arm, decode).waiting == st.waiting
    ensures Enabled(st, Fire) ==> Apply(st, Fire, decode).waiting == st.waiting + 1 && !Apply(st, Fire, decode).armed
    ensures Enabled(st, Load(broken)) ==>
              var next := Apply(st, Load(broken), decode);
              && (!broken && (st.file.Missing? || (st.file.Lines? && st.file.whole)) ==>
                    next.snap == Loaded(st.file, decode) && next.readings == st.readings + [next.snap])
              && (broken || st.file.Unreadable? || (st.file.Lines? && !st.file.whole) ==>
                    next.snap == st.snap && next.readings == st.readings)
  {
  }

  /** The seed is whatever was there to read, none of it being reported; a deletion leaves no file. */
  lemma SeedLaw(st: State, broken: bool, decode: Decoder)
    ensures Enabled(st, Seed(broken)) ==>
              var next := Apply(st, Seed(broken), decode);
              next.snap == (if broken then map[] else Loaded(st.file, decode)) && next.readings == [next.snap]
              && !next.armed == !st.armed && next.waiting == st.waiting
    ensures Apply(st, Unlink, decode).file == Missing
  {
  }
}
