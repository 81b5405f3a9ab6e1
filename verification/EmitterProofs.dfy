/** What the emitter's protocol keeps over every run: nobody sends on a closed channel or closes
    one twice, deliveries have no gaps, and everyone who leaves is closed in the end. */
module EmitterProofs {
  import opened Outcomes
  import opened EmitterProtocol

  lemma LockStep(st: State, a: Action)
    requires Inv(st) && Enabled(st, a)
    ensures LockInv(Apply(st, a))
  {
    if a.PublishStart? {
      forall id: SubId | id in st.subs && id < |st.table| ensures st.table[id].start < |st.published| + 1 {
        assert Served(st, id);
      }
    }
  }

  lemma ClosersStep(st: State, a: Action)
    requires Inv(st) && Enabled(st, a)
    ensures ClosersInv(Apply(st, a))
  {
    var next := Apply(st, a);
    if a.CloserClose? { assert Owns(st, a.k, a.id); }
    forall k: nat, id: SubId | Owns(next, k, id)
      ensures id < |next.table| && id !in next.subs && !next.table[id].closed
      ensures k < |st.closers| ==> Owns(st, k, id)
      ensures k >= |st.closers| ==> id in st.subs
    {
      if k < |st.closers| {
        assert Owns(st, k, id);
      } else {
        assert Accounted(st, id);
      }
    }
  }

  /** A former member that is still open stays on some closer's list until it is closed. */
  lemma OwnedStep(st: State, a: Action, id: SubId)
    requires Inv(st) && Enabled(st, a) && id < |st.table|
    requires id !in st.subs && !st.table[id].closed && !Apply(st, a).table[id].closed
    ensures exists k: nat :: Owns(Apply(st, a), k, id)
  {
    assert Accounted(st, id);
    var k: nat :| Owns(st, k, id);
    assert Owns(Apply(st, a), k, id);
  }

  /** A member that leaves without being closed is on the new closer's list. */
  lemma DetachedStep(st: State, a: Action, id: SubId)
    requires Inv(st) && Enabled(st, a) && id < |st.table|
    requires id in st.subs && id !in Apply(st, a).subs && !Apply(st, a).table[id].closed
    ensures Owns(Apply(st, a), |st.closers|, id)
  {
  }

  lemma AccountedMember(st: State, a: Action, id: SubId)
    requires Inv(st) && Enabled(st, a) && id < |Apply(st, a).table| && id in Apply(st, a).subs
    ensures Accounted(Apply(st, a), id)
  {
    if id < |st.table| {
      assert Accounted(st, id);
      if a.CloserClose? { assert Owns(st, a.k, a.id); }
    }
  }

  lemma AccountedFormer(st: State, a: Action, id: SubId)
    requires Inv(st) && Enabled(st, a) && id < |st.table| && id !in Apply(st, a).subs
    ensures id < |Apply(st, a).table| && Accounted(Apply(st, a), id)
  {
    assert Accounted(st, id);
    if a.CloserClose? { assert Owns(st, a.k, a.id); }
    if !Apply(st, a).table[id].closed {
      if id in st.subs {
        DetachedStep(st, a, id);
      } else {
        OwnedStep(st, a, id);
      }
    }
  }

  lemma AccountedStep(st: State, a: Action, id: SubId)
    requires Inv(st) && Enabled(st, a) && id < |Apply(st, a).table|
    ensures Accounted(Apply(st, a), id)
  {
    if id in Apply(st, a).subs {
      AccountedMember(st, a, id);
    } else {
      AccountedFormer(st, a, id);
    }
  }

  lemma AppendKeepsSlice(log: seq<Event>, ev: Event, i: nat, j: nat)
    requires i <= j <= |log|
    ensures (log + [ev])[i..j] == log[i..j]
  {
  }

  lemma ServedPublishStart(st: State, ev: Event, id: SubId)
    requires Inv(st) && st.lock.Free? && id < |st.table|
    ensures Served(Apply(st, PublishStart(ev)), id)
  {
    var next := Apply(st, PublishStart(ev));
    assert Served(st, id) && Accounted(st, id);
    assert Frontier(next, id) == Frontier(st, id);
    AppendKeepsSlice(st.published, ev, st.table[id].start, Frontier(st, id));
  }

  lemma MatchingExtend(f: Filter, log: seq<Event>, start: nat)
    requires start < |log|
    ensures var n := |log| - 1;
            Matching(f, log[start..|log|]) == Matching(f, log[start..n]) + (if Matches(f, log[n]) then [log[n]] else [])
  {
    var whole := log[start..];
    assert whole[..|whole| - 1] == log[start..|log| - 1] && whole == log[start..|log|];
  }

  /** The matching log up to and with the event being published. */
  lemma OfferedLog(st: State, id: SubId)
    requires Inv(st) && Enabled(st, PublishTo(id)) && id < |st.table|
    ensures var s := st.table[id]; var n := |st.published|;
            && 0 < n && s.start < n && s.left.None? && !s.closed && |s.buffer| <= BUFFER
            && s.received + s.buffer == Matching(s.filter, st.published[s.start..n - 1])
            && Matching(s.filter, st.published[s.start..n])
               == s.received + s.buffer + (if Matches(s.filter, st.lock.ev) then [st.lock.ev] else [])
  {
    var s := st.table[id];
    assert Served(st, id) && Accounted(st, id);
    assert Frontier(st, id) == |st.published| - 1;
    MatchingExtend(s.filter, st.published, s.start);
  }

  /** What being offered the event leaves of a subscriber that has not departed. */
  lemma OfferedRecord(st: State, id: SubId)
    requires Enabled(st, PublishTo(id)) && 0 < |st.published| && st.table[id].left.None? && !st.table[id].closed
    ensures var s := st.table[id]; var next := Apply(st, PublishTo(id)); var n := |st.published|;
            && |next.table| == |st.table| && next.published == st.published
            && (if !Matches(s.filter, st.lock.ev) then next.table[id] == s && Frontier(next, id) == n
                else if |s.buffer| < BUFFER then
                  next.table[id] == s.(buffer := s.buffer + [st.lock.ev]) && Frontier(next, id) == n
                else next.table[id] == Leave(s, n - 1, Lagged) && Frontier(next, id) == n - 1)
  {
  }

  lemma ServedUpTo(st: State, id: SubId, frontier: nat)
    requires id < |st.table| && Frontier(st, id) == frontier && st.table[id].start <= frontier <= |st.published|
    requires st.table[id].received + st.table[id].buffer
          == Matching(st.table[id].filter, st.published[st.table[id].start..frontier])
    requires |st.table[id].buffer| <= BUFFER
    ensures Served(st, id)
  {
  }

  lemma ServedOffered(st: State, id: SubId)
    requires Inv(st) && Enabled(st, PublishTo(id)) && id < |st.table|
    ensures id < |Apply(st, PublishTo(id)).table| && Served(Apply(st, PublishTo(id)), id)
  {
    var s := st.table[id];
    OfferedLog(st, id);
    OfferedRecord(st, id);
    assert s.received + (s.buffer + [st.lock.ev]) == s.received + s.buffer + [st.lock.ev];
    var lagging := Matches(s.filter, st.lock.ev) && |s.buffer| == BUFFER;
    ServedUpTo(Apply(st, PublishTo(id)), id, if lagging then |st.published| - 1 else |st.published|);
  }

  /** A subscriber whose record and frontier are as before is served as before. */
  lemma ServedUnchanged(st: State, next: State, id: SubId)
    requires id < |st.table| && id < |next.table| && Served(st, id) && next.published == st.published
    requires next.table[id].start == st.table[id].start && next.table[id].filter == st.table[id].filter
    requires next.table[id].received + next.table[id].buffer == st.table[id].received + st.table[id].buffer
    requires |next.table[id].buffer| <= BUFFER && Frontier(next, id) == Frontier(st, id)
    ensures Served(next, id)
  {
  }

  lemma ServedPublishTo(st: State, to: SubId, id: SubId)
    requires Inv(st) && Enabled(st, PublishTo(to)) && id < |st.table|
    ensures Served(Apply(st, PublishTo(to)), id)
  {
    if to == id {
      ServedOffered(st, id);
    } else {
      assert Served(st, id);
      ServedUnchanged(st, Apply(st, PublishTo(to)), id);
    }
  }

  lemma ServedReceive(st: State, from: SubId, id: SubId)
    requires Inv(st) && Enabled(st, Receive(from)) && id < |st.table|
    ensures Served(Apply(st, Receive(from)), id)
  {
    var s := st.table[id];
    assert Served(st, id);
    if from == id {
      assert (s.received + [s.buffer[0]]) + s.buffer[1..] == s.received + s.buffer;
    }
    ServedUnchanged(st, Apply(st, Receive(from)), id);
  }

  lemma ServedSubscribe(st: State, f: Filter, dead: bool, id: SubId)
    requires Inv(st) && Enabled(st, Subscribe(f, dead)) && id < |st.table| + 1
    ensures Served(Apply(st, Subscribe(f, dead)), id)
  {
    if id < |st.table| {
      assert Served(st, id);
      ServedUnchanged(st, Apply(st, Subscribe(f, dead)), id);
    }
  }

  /** Steps that neither publish, offer, receive nor subscribe. */
  predicate Quiet(a: Action) {
    !a.PublishStart? && !a.PublishTo? && !a.Receive? && !a.Subscribe?
  }

  lemma RecordKept(st: State, a: Action, id: SubId)
    requires Enabled(st, a) && Quiet(a) && id < |st.table|
    ensures var next := Apply(st, a);
            && |next.table| == |st.table| && next.published == st.published
            && next.table[id].(closed := st.table[id].closed, closes := st.table[id].closes, left := st.table[id].left,
                               parentDone := st.table[id].parentDone, cancelled := st.table[id].cancelled,
                               watching := st.table[id].watching) == st.table[id]
  {
  }

  lemma FrontierKept(st: State, a: Action, id: SubId)
    requires Inv(st) && Enabled(st, a) && Quiet(a) && id < |st.table| && |Apply(st, a).table| == |st.table|
    ensures Frontier(Apply(st, a), id) == Frontier(st, id)
  {
    assert Accounted(st, id);
  }

  lemma ServedOther(st: State, a: Action, id: SubId)
    requires Inv(st) && Enabled(st, a) && id < |st.table| && Quiet(a)
    ensures id < |Apply(st, a).table| && Served(Apply(st, a), id)
  {
    assert Served(st, id);
    RecordKept(st, a, id);
    FrontierKept(st, a, id);
    ServedUnchanged(st, Apply(st, a), id);
  }

  /** Every step keeps the invariant: no send reaches a closed channel, no channel is closed
      twice, and nobody who left the set is forgotten. */
  lemma InvStep(st: State, a: Action)
    requires Inv(st) && Enabled(st, a)
    ensures Inv(Apply(st, a))
  {
    var next := Apply(st, a);
    LockStep(st, a);
    ClosersStep(st, a);
    forall id: SubId | id < |next.table| ensures Accounted(next, id) && Served(next, id) {
      AccountedStep(st, a, id);
      match a
      case PublishStart(ev) => ServedPublishStart(st, ev, id);
      case PublishTo(to) => ServedPublishTo(st, to, id);
      case Receive(from) => ServedReceive(st, from, id);
      case Subscribe(f, dead) => ServedSubscribe(st, f, dead, id);
      case _ => ServedOther(st, a, id);
    }
    if a.PublishTo? { assert Accounted(st, a.id); }
  }

  lemma {:induction false} ExecInv(st: State, actions: seq<Action>)
    requires Inv(st) && Exec(st, actions).Some?
    ensures Inv(Exec(st, actions).value)
  {
    if actions != [] {
      var n := |actions| - 1;
      ExecInv(st, actions[..n]);
      InvStep(Exec(st, actions[..n]).value, actions[n]);
    }
  }

  lemma ReachableInv(st: State)
    requires Reachable(st)
    ensures Inv(st)
  {
    var actions :| Exec(INITIAL, actions) == Some(st);
    ExecInv(INITIAL, actions);
  }

  // Safety over whole runs

  /** No interleaving sends on a closed channel or closes one twice, so the recover in
      closeWpSub never has anything to recover. */
  lemma NeverPanics(st: State)
    requires Reachable(st)
    ensures st.panics == 0
    ensures forall id: SubId | id < |st.table| :: st.table[id].closes == (if st.table[id].closed then 1 else 0)
    ensures forall id :: id in st.subs ==> id < |st.table| && !st.table[id].closed
  {
    ReachableInv(st);
    forall id: SubId | id < |st.table|
      ensures st.table[id].closes == (if st.table[id].closed then 1 else 0)
      ensures id in st.subs ==> !st.table[id].closed
    {
      assert Accounted(st, id);
    }
  }

  /** Whoever left the set is closed already or on the list of exactly one closer. */
  lemma FormerMembersAreClosing(st: State, id: SubId)
    requires Reachable(st) && id < |st.table| && id !in st.subs
    ensures st.table[id].closed <==> !exists k: nat :: Owns(st, k, id)
    ensures !st.table[id].closed ==> exists k: nat :: Owns(st, k, id) && forall j: nat :: Owns(st, j, id) ==> j == k
  {
    ReachableInv(st);
    assert Accounted(st, id);
  }

  /** Received then buffered is the matching part of the log from the subscription to the frontier,
      in order, without gaps. The frontier is the departure; for a member it is the end of the log,
      less the event being published if it has not been offered that yet. */
  lemma DeliversWithoutGaps(st: State, id: SubId)
    requires Reachable(st) && id < |st.table|
    ensures var s := st.table[id];
            && |s.buffer| <= 64
            && s.start <= Frontier(st, id) <= |st.published|
            && s.received + s.buffer == Matching(s.filter, st.published[s.start..Frontier(st, id)])
            && (s.left.Some? ==>
                && s.start <= s.left.value.at <= |st.published|
                && s.received + s.buffer == Matching(s.filter, st.published[s.start..s.left.value.at]))
            && (s.left.None? && st.lock.Free? ==>
                && s.start <= |st.published|
                && s.received + s.buffer == Matching(s.filter, st.published[s.start..]))
  {
    ReachableInv(st);
    assert Served(st, id);
    var s := st.table[id];
    assert s.left.None? && st.lock.Free? ==> st.published[s.start..Frontier(st, id)] == st.published[s.start..];
  }

  /** A publish decides to drop a subscriber exactly when the event matches and 64 earlier
      matching events are still undelivered. */
  lemma DropsExactlyTheLaggards(st: State, id: SubId)
    requires Reachable(st) && Enabled(st, PublishTo(id))
    ensures 0 < |st.published| && st.table[id].start < |st.published|
    ensures var s := st.table[id];
            var earlier := Matching(s.filter, st.published[s.start..|st.published| - 1]);
            && s.received <= earlier
            && (id in Apply(st, PublishTo(id)).lock.slow
                <==> Matches(s.filter, st.lock.ev) && |earlier| - |s.received| == 64)
            && (|earlier| - |s.received| <= 64)
  {
    ReachableInv(st);
    assert Served(st, id) && Accounted(st, id);
  }

  /** A departure blamed on the subscriber's own context is one its owner asked for. */
  lemma CancelledMeansParentDone(st: State, id: SubId)
    requires Reachable(st) && id < |st.table|
    requires st.table[id].left.Some? && st.table[id].left.value.reason == Cancelled
    ensures st.table[id].parentDone
  {
    ReachableInv(st);
    assert Accounted(st, id);
  }

  // Every goroutine finishes, and then every channel that should be closed is

  /** Steps the emitter takes on its own, as opposed to calls and consumers. */
  predicate Internal(a: Action) {
    a.PublishTo? || a.PublishDrop? || a.PublishCancel? || a.PublishEnd? || a.CloserClose? || a.CloserCancel? || a.Wake?
  }

  ghost function WatchingIds(st: State): set<nat> { set i: nat | i < |st.table| && st.table[i].watching }
  ghost function OpenIds(st: State): set<nat> { set i: nat | i < |st.table| && !st.table[i].closed }
  ghost function BusyClosers(st: State): set<nat> { set k: nat | k < |st.closers| && st.closers[k].cancelling.Some? }

  /** Work left before the emitter's own goroutines come to rest. */
  ghost function Work(st: State): nat {
    |WatchingIds(st)| + 2 * |OpenIds(st)| + |BusyClosers(st)|
    + (if st.lock.Free? then 0 else 1 + |st.lock.todo| + (if st.lock.cancelling.Some? then 1 else 0))
  }

  lemma InternalStepWorks(st: State, a: Action)
    requires Inv(st) && Enabled(st, a) && Internal(a)
    ensures Work(Apply(st, a)) < Work(st)
  {
    match a
    case PublishTo(id) => SameSets(st, a);
    case PublishDrop(id) => DropWorks(st, id);
    case CloserClose(k, id) => CloseWorks(st, k, id);
    case CloserCancel(k) => CancelWorks(st, k);
    case Wake(id) => WakeWorks(st, id);
    case _ => SameSets(st, a);
  }

  lemma SameSets(st: State, a: Action)
    requires Enabled(st, a) && (a.PublishTo? || a.PublishCancel? || a.PublishEnd?)
    ensures var next := Apply(st, a);
            WatchingIds(next) == WatchingIds(st) && OpenIds(next) == OpenIds(st) && BusyClosers(next) == BusyClosers(st)
  {
  }

  lemma DropWorks(st: State, id: SubId)
    requires Inv(st) && Enabled(st, PublishDrop(id))
    ensures Work(Apply(st, PublishDrop(id))) < Work(st)
  {
    var next := Apply(st, PublishDrop(id));
    assert Accounted(st, id);
    assert WatchingIds(next) == WatchingIds(st) && OpenIds(next) == OpenIds(st) - {id};
    assert BusyClosers(next) == BusyClosers(st);
  }

  lemma CloseWorks(st: State, k: nat, id: SubId)
    requires Inv(st) && Enabled(st, CloserClose(k, id))
    ensures Work(Apply(st, CloserClose(k, id))) < Work(st)
  {
    var next := Apply(st, CloserClose(k, id));
    assert Owns(st, k, id);
    assert WatchingIds(next) == WatchingIds(st) && OpenIds(next) == OpenIds(st) - {id};
    assert BusyClosers(next) == BusyClosers(st) + {k};
  }

  lemma CancelWorks(st: State, k: nat)
    requires Inv(st) && Enabled(st, CloserCancel(k))
    ensures Work(Apply(st, CloserCancel(k))) < Work(st)
  {
    var next := Apply(st, CloserCancel(k));
    assert WatchingIds(next) == WatchingIds(st) && OpenIds(next) == OpenIds(st);
    assert BusyClosers(next) == BusyClosers(st) - {k};
  }

  lemma WakeWorks(st: State, id: SubId)
    requires Inv(st) && Enabled(st, Wake(id))
    ensures Work(Apply(st, Wake(id))) < Work(st)
  {
    var next := Apply(st, Wake(id));
    assert WatchingIds(next) == WatchingIds(st) - {id} && OpenIds(next) == OpenIds(st);
    assert BusyClosers(next) == BusyClosers(st);
  }

  /** However the emitter's own steps are scheduled, there are at most Work(st) of them. */
  lemma {:induction false} InternalRunsEnd(st: State, actions: seq<Action>)
    requires Inv(st) && Exec(st, actions).Some? && forall a | a in actions :: Internal(a)
    ensures |actions| + Work(Exec(st, actions).value) <= Work(st)
  {
    if actions != [] {
      var n := |actions| - 1;
      InternalRunsEnd(st, actions[..n]);
      ExecInv(st, actions[..n]);
      InternalStepWorks(Exec(st, actions[..n]).value, actions[n]);
    }
  }

  predicate Settled(st: State, id: SubId)
    requires id < |st.table|
  {
    var s := st.table[id];
    && st.lock.Free?
    && (s.closed <==> id !in st.subs)
    && (s.parentDone || s.cancelled ==> s.closed)
  }

  lemma UnsettledCanMove(st: State, id: SubId) returns (a: Action)
    requires Inv(st) && id < |st.table| && !Settled(st, id)
    ensures Internal(a) && Enabled(st, a)
  {
    assert Accounted(st, id);
    if st.lock.Publishing? {
      if st.lock.todo != {} {
        var j :| j in st.lock.todo;
        return PublishTo(j);
      } else if st.lock.cancelling.Some? {
        return PublishCancel;
      } else if st.lock.slow != {} {
        var j :| j in st.lock.slow;
        return PublishDrop(j);
      } else {
        return PublishEnd;
      }
    } else if id !in st.subs {
      var k: nat :| Owns(st, k, id);
      return if st.closers[k].cancelling.Some? then CloserCancel(k) else CloserClose(k, id);
    } else {
      return Wake(id);
    }
  }

  /** Once no goroutine of the emitter can move, the mutex is free, a channel is closed exactly
      when its subscriber left the set, and everyone whose context ended has left it. */
  lemma AtRestEverythingIsSettled(st: State, id: SubId)
    requires Reachable(st) && id < |st.table|
    requires forall a | Internal(a) :: !Enabled(st, a)
    ensures Settled(st, id)
  {
    ReachableInv(st);
    if !Settled(st, id) {
      var a := UnsettledCanMove(st, id);
      assert false;
    }
  }
}
