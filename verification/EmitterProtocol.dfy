/** The fan-out protocol of core/wpemitter.go as a machine of atomic steps.
    A step is one critical section of the emitter's mutex, one channel operation,
    or one context cancellation, so that every interleaving of publishers, closers,
    watcher goroutines and consumers is a sequence of steps. Subscribers are the
    indices of `table`, which only grows. */
module EmitterProtocol {
  import opened Outcomes

  /** Depth of each subscriber's channel. */
  const BUFFER: nat := 64

  type SubId = nat

  datatype Event = Event(id: string, kind: string, at: int, workItem: string)

  datatype Filter = Filter(kinds: seq<string>, workItem: string, since: Option<int>)

  datatype Reason = Cancelled | Lagged | EmitterClosed

  /** When a subscriber stopped receiving: the number of events published before that. */
  datatype Departure = Departure(at: nat, reason: Reason)

  /** `buffer` and `closed` are the channel; `parentDone` and `cancelled` are the two ways
      the subscriber's context ends; `watching` says its goroutine still waits for that.
      The rest is history: `closes` counts calls to close, recovered ones included. */
  datatype Subscriber = Subscriber(
    filter: Filter,
    buffer: seq<Event>, closed: bool,
    parentDone: bool, cancelled: bool, watching: bool,
    closes: nat, start: nat, left: Option<Departure>, received: seq<Event>)

  /** Who holds the mutex across several steps. Only Publish does: first it offers `ev` to
      `todo`, then it drops each member of `slow`. */
  datatype Lock =
    | Free
    | Publishing(ev: Event, todo: set<SubId>, slow: set<SubId>, cancelling: Option<SubId>)

  /** A goroutine that took subscribers out of the set and closes them without the mutex:
      a Close call, or a watcher inside remove. */
  datatype Closer = Closer(todo: set<SubId>, cancelling: Option<SubId>)

  datatype State = State(
    subs: set<SubId>, table: seq<Subscriber>, lock: Lock, closers: seq<Closer>,
    published: seq<Event>, panics: nat)

  const INITIAL := State({}, [], Free, [], [], 0)

  datatype Action =
    | Subscribe(filter: Filter, dead: bool)
    | CancelParent(id: SubId)
    | Receive(id: SubId)
    | PublishStart(ev: Event)
    | PublishTo(id: SubId)
    | PublishDrop(id: SubId)
    | PublishCancel
    | PublishEnd
    | CloseDetach
    | CloserClose(k: nat, id: SubId)
    | CloserCancel(k: nat)
    | Wake(id: SubId)

  predicate Matches(f: Filter, e: Event) {
    && (f.kinds == [] || e.kind in f.kinds)
    && (f.workItem == "" || f.workItem == e.workItem)
    && (f.since.Some? ==> f.since.value <= e.at)
  }

  /** The events of `log` a filter lets through, in order. */
  function Matching(f: Filter, log: seq<Event>): seq<Event> {
    if log == [] then [] else
      var n := |log| - 1;
      Matching(f, log[..n]) + (if Matches(f, log[n]) then [log[n]] else [])
  }

  predicate Enabled(st: State, a: Action) {
    match a
    case Subscribe(_, _) => st.lock.Free?
    case CancelParent(id) => id < |st.table|
    case Receive(id) => id < |st.table| && st.table[id].buffer != []
    case PublishStart(_) => st.lock.Free?
    case PublishTo(id) => st.lock.Publishing? && id in st.lock.todo && id < |st.table|
    case PublishDrop(id) =>
      st.lock.Publishing? && st.lock.todo == {} && id in st.lock.slow && st.lock.cancelling.None? && id < |st.table|
    case PublishCancel =>
      st.lock.Publishing? && st.lock.cancelling.Some? && st.lock.cancelling.value < |st.table|
    case PublishEnd =>
      st.lock.Publishing? && st.lock.todo == {} && st.lock.slow == {} && st.lock.cancelling.None?
    case CloseDetach => st.lock.Free?
    case CloserClose(k, id) =>
      k < |st.closers| && id in st.closers[k].todo && st.closers[k].cancelling.None? && id < |st.table|
    case CloserCancel(k) =>
      k < |st.closers| && st.closers[k].cancelling.Some? && st.closers[k].cancelling.value < |st.table|
    case Wake(id) =>
      st.lock.Free? && id < |st.table| && st.table[id].watching && (st.table[id].parentDone || st.table[id].cancelled)
  }

  function NewSubscriber(f: Filter, dead: bool, start: nat): Subscriber {
    Subscriber(f, [], false, dead, false, true, 0, start, None, [])
  }

  /** close(ch): the second call on one channel panics, which the caller recovers. */
  function CloseChannel(s: Subscriber): Subscriber {
    s.(closed := true, closes := s.closes + 1)
  }

  function Leave(s: Subscriber, at: nat, reason: Reason): Subscriber {
    s.(left := Some(Departure(at, reason)))
  }

  function DetachAll(st: State): seq<Subscriber> {
    seq(|st.table|, i requires 0 <= i < |st.table| =>
      if i in st.subs then Leave(st.table[i], |st.published|, EmitterClosed) else st.table[i])
  }

  function Apply(st: State, a: Action): State
    requires Enabled(st, a)
  {
    match a
    case Subscribe(f, dead) =>
      st.(subs := st.subs + {|st.table|}, table := st.table + [NewSubscriber(f, dead, |st.published|)])
    case CancelParent(id) =>
      st.(table := st.table[id := st.table[id].(parentDone := true)])
    case Receive(id) =>
      var s := st.table[id];
      st.(table := st.table[id := s.(buffer := s.buffer[1..], received := s.received + [s.buffer[0]])])
    case PublishStart(ev) =>
      st.(lock := Publishing(ev, st.subs, {}, None), published := st.published + [ev])
    case PublishTo(id) =>
      var s := st.table[id];
      var next := st.(lock := st.lock.(todo := st.lock.todo - {id}));
      if !Matches(s.filter, st.lock.ev) then next
      else if s.closed then next.(panics := st.panics + 1)
      else if |s.buffer| < BUFFER then
        next.(table := st.table[id := s.(buffer := s.buffer + [st.lock.ev])])
      else
        next.(lock := next.lock.(slow := st.lock.slow + {id}),
              table := st.table[id := Leave(s, if st.published == [] then 0 else |st.published| - 1, Lagged)])
    case PublishDrop(id) =>
      st.(subs := st.subs - {id},
          lock := st.lock.(slow := st.lock.slow - {id}, cancelling := Some(id)),
          table := st.table[id := CloseChannel(st.table[id])])
    case PublishCancel =>
      var id := st.lock.cancelling.value;
      st.(lock := st.lock.(cancelling := None), table := st.table[id := st.table[id].(cancelled := true)])
    case PublishEnd => st.(lock := Free)
    case CloseDetach =>
      st.(subs := {}, closers := st.closers + [Closer(st.subs, None)], table := DetachAll(st))
    case CloserClose(k, id) =>
      st.(closers := st.closers[k := Closer(st.closers[k].todo - {id}, Some(id))],
          table := st.table[id := CloseChannel(st.table[id])])
    case CloserCancel(k) =>
      var id := st.closers[k].cancelling.value;
      st.(closers := st.closers[k := st.closers[k].(cancelling := None)],
          table := st.table[id := st.table[id].(cancelled := true)])
    case Wake(id) =>
      var s := st.table[id].(watching := false);
      if id in st.subs then
        st.(subs := st.subs - {id}, closers := st.closers + [Closer({id}, None)],
            table := st.table[id := Leave(s, |st.published|, Cancelled)])
      else st.(table := st.table[id := s])
  }

  /** Runs `actions` in order; None when one of them is not enabled. */
  function Exec(st: State, actions: seq<Action>): Option<State> {
    if actions == [] then Some(st) else
      var n := |actions| - 1;
      var mid := Exec(st, actions[..n]);
      if mid.Some? && Enabled(mid.value, actions[n]) then Some(Apply(mid.value, actions[n])) else None
  }

  ghost predicate Reachable(st: State) {
    exists actions :: Exec(INITIAL, actions) == Some(st)
  }

  // What holds in every reachable state

  /** How far into the published log subscriber `id` has been served. */
  function Frontier(st: State, id: SubId): int
    requires id < |st.table|
  {
    var s := st.table[id];
    if s.left.Some? then s.left.value.at
    else if st.lock.Publishing? && id in st.lock.todo then |st.published| - 1
    else |st.published|
  }

  /** Everything received, then everything still buffered, is exactly the matching part of the
      log since the subscription. */
  predicate Served(st: State, id: SubId)
    requires id < |st.table|
  {
    var s := st.table[id];
    && s.start <= Frontier(st, id) <= |st.published|
    && s.received + s.buffer == Matching(s.filter, st.published[s.start..Frontier(st, id)])
    && |s.buffer| <= BUFFER
  }

  predicate Owns(st: State, k: nat, id: SubId) {
    k < |st.closers| && id in st.closers[k].todo
  }

  /** A member is open and untouched; a former member was closed once, or is still open and
      waits on some closer's list. */
  ghost predicate Accounted(st: State, id: SubId)
    requires id < |st.table|
  {
    var s := st.table[id];
    && (id in st.subs ==>
        && !s.closed && s.closes == 0 && !s.cancelled && s.watching
        && (s.left.Some? <==> st.lock.Publishing? && id in st.lock.slow))
    && (id !in st.subs ==> s.left.Some?)
    && (id !in st.subs && s.closed ==> s.closes == 1)
    && (id !in st.subs && !s.closed ==> s.closes == 0 && exists k: nat :: Owns(st, k, id))
    && (s.left.Some? && s.left.value.reason == Cancelled ==> s.parentDone)
  }

  ghost predicate LockInv(st: State) {
    st.lock.Publishing? ==>
      && st.published != [] && st.lock.ev == st.published[|st.published| - 1]
      && st.lock.todo <= st.subs && st.lock.slow <= st.subs && st.lock.todo !! st.lock.slow
      && (forall id: SubId :: id in st.lock.todo && id < |st.table| ==> st.table[id].start < |st.published|)
      && (st.lock.cancelling.Some? ==> st.lock.cancelling.value !in st.subs && st.lock.cancelling.value < |st.table|)
  }

  /** Only open former members are on closers' lists, and each on one list only. */
  ghost predicate ClosersInv(st: State) {
    && (forall k: nat, id: SubId :: Owns(st, k, id) ==> id < |st.table| && id !in st.subs && !st.table[id].closed)
    && (forall k: nat, j: nat, id: SubId :: Owns(st, k, id) && Owns(st, j, id) ==> k == j)
    && (forall k | 0 <= k < |st.closers| && st.closers[k].cancelling.Some? ::
          st.closers[k].cancelling.value < |st.table| && st.closers[k].cancelling.value !in st.subs)
  }

  ghost predicate Inv(st: State) {
    && (forall id :: id in st.subs ==> id < |st.table|)
    && LockInv(st)
    && ClosersInv(st)
    && (forall id: SubId | id < |st.table| :: Accounted(st, id))
    && (forall id: SubId | id < |st.table| :: Served(st, id))
    && st.panics == 0
  }
}
