/** What the emitter's steps mean for a caller: the filter a subscriber is served by is the one it
    gave, a filter's three conditions, what one Publish or Close does to each subscriber, and that
    every watcher goroutine ends. */
module EmitterLaws {
  import opened Outcomes
  import opened EmitterProtocol
  import opened EmitterProofs

  /** A filter lets an event through when its kind is listed or none is, its work item is the one
      asked for or none is, and it is not older than asked. These two laws determine Matching. */
  lemma MatchingLaws(f: Filter, log: seq<Event>, e: Event)
    ensures Matching(f, []) == []
    ensures Matching(f, log + [e]) == Matching(f, log) +
              if (f.kinds == [] || e.kind in f.kinds) && (f.workItem == "" || e.workItem == f.workItem)
                 && (f.since.None? || e.at >= f.since.value)
              then [e] else []
  {
    assert (log + [e])[..|log|] == log;
  }

  /** What a subscriber asked for is never changed by any step. */
  lemma RecordStable(st: State, a: Action, id: SubId)
    requires Enabled(st, a) && id < |st.table|
    ensures var next := Apply(st, a);
            && id < |next.table|
            && next.table[id].filter == st.table[id].filter && next.table[id].start == st.table[id].start
  {
  }

  lemma {:induction false} RecordStableRun(st: State, actions: seq<Action>, id: SubId)
    requires Exec(st, actions).Some? && id < |st.table|
    ensures var end := Exec(st, actions).value;
            id < |end.table| && end.table[id].filter == st.table[id].filter && end.table[id].start == st.table[id].start
  {
    if actions != [] {
      var n := |actions| - 1;
      RecordStableRun(st, actions[..n], id);
      RecordStable(Exec(st, actions[..n]).value, actions[n], id);
    }
  }

  /** A subscription adds one open, empty member with the caller's filter and context, to be served
      from the next event on. */
  lemma SubscribeAdds(st: State, f: Filter, dead: bool)
    requires st.lock.Free?
    ensures var next := Apply(st, Subscribe(f, dead)); var id := |st.table|;
            && |next.table| == id + 1 && next.table[..id] == st.table && next.subs == st.subs + {id}
            && next.published == st.published
            && next.table[id].filter == f && next.table[id].parentDone == dead && next.table[id].start == |st.published|
            && next.table[id].buffer == [] == next.table[id].received && !next.table[id].closed
  {
  }

  /** A run and one more step. */
  lemma ExecOneMore(st: State, run: seq<Action>, a: Action, mid: State)
    requires Exec(st, run) == Some(mid) && Enabled(mid, a)
    ensures Exec(st, run + [a]) == Some(Apply(mid, a))
  {
    assert (run + [a])[..|run|] == run;
  }

  lemma ExecLast(st: State, run: seq<Action>) returns (mid: State)
    requires run != [] && Exec(st, run).Some?
    ensures Exec(st, run[..|run| - 1]) == Some(mid) && Enabled(mid, run[|run| - 1])
    ensures Exec(st, run) == Some(Apply(mid, run[|run| - 1]))
  {
    mid := Exec(st, run[..|run| - 1]).value;
  }

  lemma {:induction false} ExecJoined(st: State, before: seq<Action>, mid: State, after: seq<Action>, end: State)
    requires Exec(st, before) == Some(mid) && Exec(mid, after) == Some(end)
    ensures Exec(st, before + after) == Some(end)
  {
    if after == [] {
      assert before + after == before;
    } else {
      var k := |after| - 1;
      var last := ExecLast(mid, after);
      ExecJoined(st, before, mid, after[..k], last);
      ExecOneMore(st, before + after[..k], after[k], last);
      assert before + after == before + after[..k] + [after[k]];
    }
  }

  lemma ReachableOn(st: State, a: Action, actions: seq<Action>)
    requires Reachable(st) && Enabled(st, a) && Exec(Apply(st, a), actions).Some?
    ensures Reachable(Exec(Apply(st, a), actions).value)
  {
    var before :| Exec(INITIAL, before) == Some(st);
    ExecOneMore(INITIAL, before, a, st);
    var end := Exec(Apply(st, a), actions).value;
    ExecJoined(INITIAL, before + [a], Apply(st, a), actions, end);
  }

  /** In every run after it subscribed, a subscriber's filter is the one it gave, and what it
      received and still has buffered are the events published since that this filter lets through:
      up to its departure, or up to now while nobody is publishing. */
  lemma DeliversToTheCallersFilter(st: State, f: Filter, dead: bool, actions: seq<Action>)
    requires Reachable(st) && st.lock.Free? && Exec(Apply(st, Subscribe(f, dead)), actions).Some?
    ensures var id := |st.table|; var start := |st.published|;
            var end := Exec(Apply(st, Subscribe(f, dead)), actions).value;
            && id < |end.table| && end.table[id].filter == f && |end.table[id].buffer| <= 64
            && (end.table[id].left.Some? ==>
                && start <= end.table[id].left.value.at <= |end.published|
                && end.table[id].received + end.table[id].buffer
                   == Matching(f, end.published[start..end.table[id].left.value.at]))
            && (end.table[id].left.None? && end.lock.Free? ==>
                && start <= |end.published|
                && end.table[id].received + end.table[id].buffer == Matching(f, end.published[start..]))
  {
    var id := |st.table|;
    var a := Subscribe(f, dead);
    SubscribeAdds(st, f, dead);
    RecordStableRun(Apply(st, a), actions, id);
    ReachableOn(st, a, actions);
    DeliversWithoutGaps(Exec(Apply(st, a), actions).value, id);
  }

  /** A channel can be read as long as it holds something, closed or not. */
  lemma ClosedChannelsDrain(st: State, id: SubId)
    requires id < |st.table|
    ensures Enabled(st, Receive(id)) <==> st.table[id].buffer != []
    ensures st.table[id].buffer != [] ==>
              var next := Apply(st, Receive(id)).table[id];
              && next.received == st.table[id].received + [st.table[id].buffer[0]]
              && next.buffer == st.table[id].buffer[1..]
  {
  }

  /** Whenever an event is about to be offered or a channel to be closed, the channel is open. */
  lemma ChannelIsOpenWhenTouched(st: State, id: SubId)
    requires Reachable(st)
    ensures st.lock.Publishing? && (id in st.lock.todo || id in st.lock.slow) ==>
              id < |st.table| && !st.table[id].closed
    ensures forall k | 0 <= k < |st.closers| && id in st.closers[k].todo :: id < |st.table| && !st.table[id].closed
  {
    ReachableInv(st);
    if st.lock.Publishing? && (id in st.lock.todo || id in st.lock.slow) {
      assert Accounted(st, id);
    }
    forall k | 0 <= k < |st.closers| && id in st.closers[k].todo ensures id < |st.table| && !st.table[id].closed {
      assert Owns(st, k, id);
    }
  }

  /** What Go would do otherwise: a matching event sent on a closed channel panics, and closing a
      closed channel counts as a second close. */
  lemma ClosedChannelsPanic(st: State, id: SubId)
    requires id < |st.table| && st.table[id].closed
    ensures Enabled(st, PublishTo(id)) && Matches(st.table[id].filter, st.lock.ev) ==>
              Apply(st, PublishTo(id)).panics == st.panics + 1
    ensures Enabled(st, PublishDrop(id)) ==> Apply(st, PublishDrop(id)).table[id].closes == st.table[id].closes + 1
    ensures forall k: nat | Enabled(st, CloserClose(k, id)) ::
              Apply(st, CloserClose(k, id)).table[id].closes == st.table[id].closes + 1
  {
  }

  // Every watcher ends

  /** Some goroutine that closed the channel is about to cancel the context. */
  ghost predicate Cancelling(st: State, id: SubId) {
    || (st.lock.Publishing? && st.lock.cancelling == Some(id))
    || exists k: nat :: CloserCancels(st, k, id)
  }

  predicate CloserCancels(st: State, k: nat, id: SubId) {
    k < |st.closers| && st.closers[k].cancelling == Some(id)
  }

  ghost predicate CancelInv(st: State) {
    forall id: SubId | id < |st.table| && st.table[id].closed :: st.table[id].cancelled || Cancelling(st, id)
  }

  lemma CancelStep(st: State, a: Action)
    requires CancelInv(st) && Enabled(st, a)
    ensures CancelInv(Apply(st, a))
  {
    var next := Apply(st, a);
    forall id: SubId | id < |next.table| && next.table[id].closed
      ensures next.table[id].cancelled || Cancelling(next, id)
    {
      CancelKept(st, a, id);
    }
  }

  lemma CancelKept(st: State, a: Action, id: SubId)
    requires CancelInv(st) && Enabled(st, a) && id < |Apply(st, a).table| && Apply(st, a).table[id].closed
    ensures Apply(st, a).table[id].cancelled || Cancelling(Apply(st, a), id)
  {
    var next := Apply(st, a);
    if a.CloserClose? && a.id == id {
      assert CloserCancels(next, a.k, id);
    } else if id < |st.table| && st.table[id].closed && !st.table[id].cancelled
              && !(st.lock.Publishing? && st.lock.cancelling == Some(id)) {
      var k: nat :| CloserCancels(st, k, id);
      assert CloserCancels(next, k, id) || next.table[id].cancelled;
    }
  }

  lemma {:induction false} CancelRun(actions: seq<Action>)
    requires Exec(INITIAL, actions).Some?
    ensures CancelInv(Exec(INITIAL, actions).value)
  {
    if actions != [] {
      var n := |actions| - 1;
      CancelRun(actions[..n]);
      CancelStep(Exec(INITIAL, actions[..n]).value, actions[n]);
    }
  }

  /** No goroutine is leaked: at rest, exactly the members still have a watcher. */
  lemma WatchersEnd(st: State, id: SubId)
    requires Reachable(st) && id < |st.table|
    requires forall a | Internal(a) :: !Enabled(st, a)
    ensures st.table[id].watching <==> id in st.subs
  {
    ReachableInv(st);
    AtRestEverythingIsSettled(st, id);
    assert Accounted(st, id);
    var actions :| Exec(INITIAL, actions) == Some(st);
    CancelRun(actions);
    if id !in st.subs && st.table[id].watching {
      if !st.table[id].cancelled {
        var k: nat :| CloserCancels(st, k, id);
        assert Internal(CloserCancel(k)) && Enabled(st, CloserCancel(k));
      } else {
        assert Internal(Wake(id)) && Enabled(st, Wake(id));
      }
      assert false;
    }
  }
}
