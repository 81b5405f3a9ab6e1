/** core/wpemitter.go: the emitter as an object. Its methods run without interference here;
    each is shown to be one run of the protocol's atomic steps, so what the protocol keeps
    under every interleaving holds between calls as well. */
module Emitter {
  import opened Outcomes
  import opened EmitterProtocol
  import opened EmitterProofs

  predicate Lags(s: Subscriber, ev: Event) {
    Matches(s.filter, ev) && |s.buffer| >= BUFFER
  }

  /** A subscriber dropped by its emitter: channel closed, context cancelled. */
  function Dropped(s: Subscriber, at: nat, reason: Reason): Subscriber {
    CloseChannel(Leave(s, at, reason)).(cancelled := true)
  }

  /** What publishing `ev` as event number `at` leaves of one member. */
  function Offered(s: Subscriber, ev: Event, at: nat): Subscriber {
    if !Matches(s.filter, ev) then s
    else if |s.buffer| < BUFFER then s.(buffer := s.buffer + [ev])
    else Leave(s, at, Lagged)
  }

  ghost function Laggards(st: State, ev: Event): set<SubId> {
    set id | id in st.subs && id < |st.table| && Lags(st.table[id], ev)
  }

  /** The state inside Publish when every member but `todo` has been offered the event. The
      order in which they were visited leaves no trace in it. */
  ghost function Offering(st: State, ev: Event, todo: set<SubId>): State {
    st.(lock := Publishing(ev, todo, Laggards(st, ev) - todo, None),
        published := st.published + [ev],
        table := seq(|st.table|, i requires 0 <= i < |st.table| =>
          if i in st.subs - todo then Offered(st.table[i], ev, |st.published|) else st.table[i]))
  }

  /** The state inside Publish when every laggard but `slow` has been dropped. */
  ghost function Dropping(st: State, ev: Event, slow: set<SubId>): State {
    var gone := Laggards(st, ev) - slow;
    st.(subs := st.subs - gone,
        lock := Publishing(ev, {}, slow, None),
        published := st.published + [ev],
        table := seq(|st.table|, i requires 0 <= i < |st.table| =>
          if i in gone then Dropped(st.table[i], |st.published|, Lagged)
          else if i in st.subs then Offered(st.table[i], ev, |st.published|) else st.table[i]))
  }

  /** Publish as one map over the table: no order of visits appears in it. */
  ghost function Published(st: State, ev: Event): State {
    Dropping(st, ev, {}).(lock := Free)
  }

  /** The state inside Close when every member it took but `mine` has been closed. */
  ghost function Closing(st: State, mine: set<SubId>): State {
    st.(subs := {}, closers := st.closers + [Closer(mine, None)],
        table := seq(|st.table|, i requires 0 <= i < |st.table| =>
          if i in st.subs - mine then Dropped(st.table[i], |st.published|, EmitterClosed)
          else if i in st.subs then Leave(st.table[i], |st.published|, EmitterClosed) else st.table[i]))
  }

  /** Close as one map over the table; `closers` gains the call's finished list. */
  ghost function ClosedAll(st: State): State {
    Closing(st, {})
  }

  ghost predicate MembersOpen(st: State) {
    forall id :: id in st.subs ==> id < |st.table| && !st.table[id].closed
  }

  lemma MembersAreOpen(st: State)
    requires Inv(st)
    ensures MembersOpen(st)
  {
    forall id | id in st.subs ensures id < |st.table| && !st.table[id].closed {
      assert Accounted(st, id);
    }
  }

  /** Subscribers whose history shows no departure. */
  ghost function Staying(st: State): set<SubId> {
    set id: nat | id < |st.table| && st.table[id].left.None?
  }

  /** Between calls the set holds exactly the subscribers that never departed. */
  lemma MembersAreStaying(st: State)
    requires Inv(st) && st.lock.Free?
    ensures st.subs == Staying(st)
  {
    forall id: SubId | id < |st.table| ensures id in st.subs <==> st.table[id].left.None? {
      assert Accounted(st, id);
    }
  }

  lemma OfferStep(st: State, ev: Event, todo: set<SubId>, id: SubId)
    requires MembersOpen(st) && todo <= st.subs && id in todo
    ensures var mid := Offering(st, ev, todo);
            && Enabled(mid, PublishTo(id)) && !mid.table[id].closed
            && mid.table[id] == st.table[id]
            && Apply(mid, PublishTo(id)) == Offering(st, ev, todo - {id})
  {
    var next := Apply(Offering(st, ev, todo), PublishTo(id));
    var want := Offering(st, ev, todo - {id});
    assert next.table == want.table;
    assert next.lock == want.lock;
  }

  lemma DropStep(st: State, ev: Event, slow: set<SubId>, id: SubId)
    requires slow <= Laggards(st, ev) && id in slow
    ensures var mid := Dropping(st, ev, slow);
            && Enabled(mid, PublishDrop(id)) && Enabled(Apply(mid, PublishDrop(id)), PublishCancel)
            && Apply(Apply(mid, PublishDrop(id)), PublishCancel) == Dropping(st, ev, slow - {id})
  {
    var next := Apply(Apply(Dropping(st, ev, slow), PublishDrop(id)), PublishCancel);
    var want := Dropping(st, ev, slow - {id});
    assert next.table == want.table;
    assert next.subs == want.subs;
  }

  lemma OfferedMeetsDropping(st: State, ev: Event)
    ensures Offering(st, ev, {}) == Dropping(st, ev, Laggards(st, ev))
  {
    assert Offering(st, ev, {}).table == Dropping(st, ev, Laggards(st, ev)).table;
    assert Laggards(st, ev) - {} == Laggards(st, ev) && st.subs - (Laggards(st, ev) - Laggards(st, ev)) == st.subs;
  }

  lemma CloseStep(st: State, mine: set<SubId>, id: SubId)
    requires MembersOpen(st) && mine <= st.subs && id in mine
    ensures var k := |st.closers|; var mid := Closing(st, mine);
            && Enabled(mid, CloserClose(k, id)) && Enabled(Apply(mid, CloserClose(k, id)), CloserCancel(k))
            && Apply(Apply(mid, CloserClose(k, id)), CloserCancel(k)) == Closing(st, mine - {id})
  {
    var k := |st.closers|;
    var next := Apply(Apply(Closing(st, mine), CloserClose(k, id)), CloserCancel(k));
    var want := Closing(st, mine - {id});
    assert next.table == want.table;
    assert next.closers == want.closers;
  }

  lemma ExecOne(st0: State, trace: seq<Action>, st: State, a: Action) returns (longer: seq<Action>)
    requires Exec(st0, trace) == Some(st) && Enabled(st, a)
    ensures Exec(st0, longer) == Some(Apply(st, a))
  {
    longer := trace + [a];
    assert longer[..|longer| - 1] == trace;
  }

  lemma OfferRun(st0: State, st: State, ev: Event, todo: set<SubId>, sofar: seq<Action>) returns (trace: seq<Action>)
    requires MembersOpen(st) && todo <= st.subs && Exec(st0, sofar) == Some(Offering(st, ev, todo))
    ensures Exec(st0, trace) == Some(Offering(st, ev, {}))
    decreases todo
  {
    trace := sofar;
    if todo != {} {
      var id :| id in todo;
      OfferStep(st, ev, todo, id);
      trace := ExecOne(st0, sofar, Offering(st, ev, todo), PublishTo(id));
      trace := OfferRun(st0, st, ev, todo - {id}, trace);
    }
  }

  lemma DropRun(st0: State, st: State, ev: Event, slow: set<SubId>, sofar: seq<Action>) returns (trace: seq<Action>)
    requires slow <= Laggards(st, ev) && Exec(st0, sofar) == Some(Dropping(st, ev, slow))
    ensures Exec(st0, trace) == Some(Dropping(st, ev, {}))
    decreases slow
  {
    trace := sofar;
    if slow != {} {
      var id :| id in slow;
      DropStep(st, ev, slow, id);
      trace := ExecOne(st0, trace, Dropping(st, ev, slow), PublishDrop(id));
      trace := ExecOne(st0, trace, Apply(Dropping(st, ev, slow), PublishDrop(id)), PublishCancel);
      trace := DropRun(st0, st, ev, slow - {id}, trace);
    }
  }

  lemma CloseRun(st0: State, st: State, mine: set<SubId>, sofar: seq<Action>) returns (trace: seq<Action>)
    requires MembersOpen(st) && mine <= st.subs && Exec(st0, sofar) == Some(Closing(st, mine))
    ensures Exec(st0, trace) == Some(ClosedAll(st))
    decreases mine
  {
    trace := sofar;
    if mine != {} {
      var k := |st.closers|;
      var id :| id in mine;
      CloseStep(st, mine, id);
      trace := ExecOne(st0, trace, Closing(st, mine), CloserClose(k, id));
      trace := ExecOne(st0, trace, Apply(Closing(st, mine), CloserClose(k, id)), CloserCancel(k));
      trace := CloseRun(st0, st, mine - {id}, trace);
    }
  }

  lemma PublishBegins(st: State, ev: Event)
    requires st.lock.Free?
    ensures Apply(st, PublishStart(ev)) == Offering(st, ev, st.subs)
  {
    assert Offering(st, ev, st.subs).table == st.table && Laggards(st, ev) - st.subs == {};
  }

  lemma CloseBegins(st: State)
    requires st.lock.Free?
    ensures Apply(st, CloseDetach) == Closing(st, st.subs)
  {
    assert Closing(st, st.subs).table == DetachAll(st);
  }

  /** A whole Publish is one run of the protocol, so it keeps the invariant. */
  lemma PublishIsARun(st: State, ev: Event) returns (trace: seq<Action>)
    requires Inv(st) && st.lock.Free?
    ensures Exec(st, trace) == Some(Published(st, ev)) && Inv(Published(st, ev))
  {
    MembersAreOpen(st);
    PublishBegins(st, ev);
    trace := ExecOne(st, [], st, PublishStart(ev));
    trace := OfferRun(st, st, ev, st.subs, trace);
    OfferedMeetsDropping(st, ev);
    trace := DropRun(st, st, ev, Laggards(st, ev), trace);
    trace := ExecOne(st, trace, Dropping(st, ev, {}), PublishEnd);
    ExecInv(st, trace);
  }

  /** So is a whole Close. */
  lemma CloseIsARun(st: State) returns (trace: seq<Action>)
    requires Inv(st) && st.lock.Free?
    ensures Exec(st, trace) == Some(ClosedAll(st)) && Inv(ClosedAll(st))
  {
    MembersAreOpen(st);
    CloseBegins(st);
    trace := ExecOne(st, [], st, CloseDetach);
    trace := CloseRun(st, st, st.subs, trace);
    ExecInv(st, trace);
  }

  /** A closer's turn keeps the invariant, and leaves the mutex as it was. */
  lemma ClosedNext(st: State, k: nat, id: SubId)
    requires Inv(st) && Enabled(st, CloserClose(k, id))
    ensures Enabled(Apply(st, CloserClose(k, id)), CloserCancel(k))
    ensures var next := Apply(Apply(st, CloserClose(k, id)), CloserCancel(k)); Inv(next) && next.lock == st.lock
  {
    InvStep(st, CloserClose(k, id));
    InvStep(Apply(st, CloserClose(k, id)), CloserCancel(k));
  }

  /** What removing a member leaves: the watcher's critical section, then close and cancel. */
  lemma RemovedTable(st: State, id: SubId)
    requires Enabled(st, Wake(id)) && id in st.subs
    ensures var st1 := Apply(st, Wake(id)); var k := |st.closers|;
            && Enabled(st1, CloserClose(k, id)) && Enabled(Apply(st1, CloserClose(k, id)), CloserCancel(k))
            && var end := Apply(Apply(st1, CloserClose(k, id)), CloserCancel(k));
               && end.table == st.table[id := Dropped(st.table[id].(watching := false), |st.published|, Cancelled)]
               && end.subs == st.subs - {id} && end.published == st.published
  {
  }

  /** matchWorkPlaneFilter. */
  method MatchFilter(f: Filter, ev: Event) returns (ok: bool)
    ensures ok == Matches(f, ev)
    ensures ok <==> (f.kinds == [] || ev.kind in f.kinds) && (f.workItem == "" || ev.workItem == f.workItem)
                    && (f.since.None? || ev.at >= f.since.value)
  {
    if |f.kinds| > 0 {
      var hit := false;
      for i := 0 to |f.kinds|
        invariant !hit && ev.kind !in f.kinds[..i]
      {
        if f.kinds[i] == ev.kind {
          hit := true;
          break;
        }
      }
      if !hit {
        return false;
      }
    }
    if f.workItem != "" && f.workItem != ev.workItem {
      return false;
    }
    if f.since.Some? && ev.at < f.since.value {
      return false;
    }
    return true;
  }

  class WorkPlaneEmitter {
    var subs: set<SubId>
    var table: seq<Subscriber>
    var lock: Lock
    var closers: seq<Closer>
    var published: seq<Event>

    ghost function St(): State
      reads this
    {
      State(subs, table, lock, closers, published, 0)
    }

    ghost predicate Valid()
      reads this
    {
      Inv(St()) && lock.Free?
    }

    constructor ()
      ensures Valid() && St() == INITIAL
    {
      subs, table, lock, closers, published := {}, [], Free, [], [];
    }

    method Subscribe(f: Filter, dead: bool) returns (id: SubId)
      requires Valid()
      modifies this
      ensures Valid() && id == |old(table)| && id in subs
      ensures St() == Apply(old(St()), EmitterProtocol.Subscribe(f, dead))
      ensures |table| == id + 1 && table[..id] == old(table) && published == old(published)
      ensures table[id].filter == f && table[id].parentDone == dead && table[id].start == |published|
      ensures table[id].buffer == [] == table[id].received && !table[id].closed && table[id].left.None?
    {
      InvStep(St(), EmitterProtocol.Subscribe(f, dead));
      id := |table|;
      table := table + [NewSubscriber(f, dead, |published|)];
      subs := subs + {id};
    }

    /** The non-blocking send of a select with a default branch. Sending on a closed channel
        would panic, hence the precondition. */
    method TrySend(id: SubId, ev: Event) returns (sent: bool)
      requires id < |table| && !table[id].closed
      modifies this`table
      ensures sent == (|old(table[id].buffer)| < 64)
      ensures table == if sent then old(table)[id := old(table[id]).(buffer := old(table[id].buffer) + [ev])]
                     else old(table)
    {
      sent := |table[id].buffer| < BUFFER;
      if sent {
        table := table[id := table[id].(buffer := table[id].buffer + [ev])];
      }
    }

    /** SubscriberCount: how many of all the subscribers there ever were have not departed. */
    method SubscriberCount() returns (n: nat)
      requires Valid()
      ensures n == |Staying(St())|
    {
      MembersAreStaying(St());
      n := |subs|;
    }

    /** One turn of the sending loop: true when the subscriber's buffer was full. */
    method Offer(id: SubId, ev: Event) returns (lagging: bool)
      requires Enabled(St(), PublishTo(id)) && lock.ev == ev && !table[id].closed && published != []
      modifies this
      ensures lock.Publishing? && lock.slow == old(lock).slow + if lagging then {id} else {}
      ensures St() == Apply(old(St()), PublishTo(id))
    {
      lagging := false;
      var hit := MatchFilter(table[id].filter, ev);
      lock := lock.(todo := lock.todo - {id});
      if hit {
        var sent := TrySend(id, ev);
        if !sent {
          lagging := true;
          lock := lock.(slow := lock.slow + {id});
          table := table[id := Leave(table[id], |published| - 1, Lagged)];
        }
      }
    }

    /** One turn of the dropping loop: leave the set, close the channel, cancel. */
    method Drop(id: SubId)
      requires Enabled(St(), PublishDrop(id))
      modifies this
      ensures St() == Apply(Apply(old(St()), PublishDrop(id)), PublishCancel)
    {
      subs := subs - {id};
      table := table[id := CloseChannel(table[id])];
      table := table[id := table[id].(cancelled := true)];
      lock := lock.(slow := lock.slow - {id});
    }

    method Publish(ev: Event)
      requires Valid()
      modifies this
      ensures Valid()
      ensures St() == Published(old(St()), ev)
    {
      ghost var st0 := St();
      MembersAreOpen(st0);
      PublishBegins(st0, ev);
      published := published + [ev];
      lock := Publishing(ev, subs, {}, None);
      var todo := subs;
      var slow: set<SubId> := {};
      while todo != {}
        invariant todo <= st0.subs && St() == Offering(st0, ev, todo) && slow == lock.slow
      {
        var id: SubId :| id in todo;
        OfferStep(st0, ev, todo, id);
        var lagging := Offer(id, ev);
        todo := todo - {id};
        if lagging {
          slow := slow + {id};
        }
      }
      OfferedMeetsDropping(st0, ev);
      while slow != {}
        invariant slow <= Laggards(st0, ev) && St() == Dropping(st0, ev, slow)
      {
        var id: SubId :| id in slow;
        DropStep(st0, ev, slow, id);
        Drop(id);
        slow := slow - {id};
      }
      lock := Free;
      ghost var trace := PublishIsARun(st0, ev);
    }

    /** One turn of the loop in Close and the tail of remove: close the channel, then cancel. */
    method CloseNext(k: nat, id: SubId)
      requires Enabled(St(), CloserClose(k, id))
      modifies this
      ensures St() == Apply(Apply(old(St()), CloserClose(k, id)), CloserCancel(k))
    {
      table := table[id := CloseChannel(table[id])];
      table := table[id := table[id].(cancelled := true)];
      closers := closers[k := Closer(closers[k].todo - {id}, None)];
    }

    method Close()
      requires Valid()
      modifies this
      ensures Valid()
      ensures St() == ClosedAll(old(St()))
    {
      ghost var st0 := St();
      MembersAreOpen(st0);
      CloseBegins(st0);
      var mine, k := subs, |closers|;
      table := DetachAll(State(subs, table, lock, closers, published, 0));
      closers := closers + [Closer(subs, None)];
      subs := {};
      while mine != {}
        invariant mine <= st0.subs && St() == Closing(st0, mine)
      {
        var id: SubId :| id in mine;
        CloseStep(st0, mine, id);
        CloseNext(k, id);
        mine := mine - {id};
      }
      ghost var trace := CloseIsARun(st0);
    }

    /** The part of remove under the mutex: true when the subscriber was a member. */
    method Awaken(id: SubId) returns (member: bool)
      requires Enabled(St(), Wake(id))
      modifies this
      ensures member == (id in old(subs)) && St() == Apply(old(St()), Wake(id))
    {
      member := id in subs;
      table := table[id := table[id].(watching := false)];
      if member {
        subs := subs - {id};
        table := table[id := Leave(table[id], |published|, Cancelled)];
        closers := closers + [Closer({id}, None)];
      }
    }

    /** remove(s), run by the watcher of subscriber `id` once its context is done. */
    method Remove(id: SubId)
      requires Valid() && Enabled(St(), Wake(id))
      modifies this
      ensures Valid()
      ensures id in old(subs) ==>
                table == old(table)[id := Dropped(old(table)[id].(watching := false), |published|, Cancelled)]
      ensures id !in old(subs) ==> table == old(table)[id := old(table)[id].(watching := false)]
      ensures subs == old(subs) - {id} && published == old(published)
    {
      ghost var st0 := St();
      InvStep(st0, Wake(id));
      var member := Awaken(id);
      if member {
        RemovedTable(st0, id);
        ClosedNext(St(), |closers| - 1, id);
        CloseNext(|closers| - 1, id);
      }
    }
  }

  /** What one Publish does to each subscriber there is. */
  lemma PublishReaches(st: State, ev: Event, id: SubId)
    requires Inv(st) && id < |st.table|
    ensures var s := st.table[id]; var next := Published(st, ev);
            var wanted := (s.filter.kinds == [] || ev.kind in s.filter.kinds)
                          && (s.filter.workItem == "" || ev.workItem == s.filter.workItem)
                          && (s.filter.since.None? || ev.at >= s.filter.since.value);
            && next.published == st.published + [ev] && |next.table| == |st.table|
            && (id !in st.subs || !wanted ==> next.table[id] == s && (id in next.subs <==> id in st.subs))
            && (id in st.subs && wanted && |s.buffer| < 64 ==>
                id in next.subs && next.table[id] == s.(buffer := s.buffer + [ev]))
            && (id in st.subs && wanted && |s.buffer| >= 64 ==>
                && id !in next.subs && next.table[id].closed && next.table[id].cancelled
                && next.table[id].buffer == s.buffer)
  {
    assert Accounted(st, id);
  }

  /** What one Close does to each subscriber there is: members are closed and cancelled and keep what
      they had buffered, the others are left alone, and no member remains. */
  lemma CloseReaches(st: State, id: SubId)
    requires id < |st.table|
    ensures var s := st.table[id]; var next := ClosedAll(st);
            && next.subs == {} && |next.table| == |st.table| && next.published == st.published
            && (id in st.subs ==>
                next.table[id].closed && next.table[id].cancelled && next.table[id].buffer == s.buffer)
            && (id !in st.subs ==> next.table[id] == s)
  {
  }

  /** With no other goroutine inside Close or remove, a Close leaves every channel ever handed
      out closed; a second Close changes no channel. */
  lemma CloseClosesEverything(st: State, id: SubId)
    requires Inv(st) && st.lock.Free? && id < |st.table|
    requires forall k: nat | k < |st.closers| :: st.closers[k].todo == {}
    ensures ClosedAll(st).table[id].closed
    ensures ClosedAll(ClosedAll(st)).table == ClosedAll(st).table
  {
    assert Accounted(st, id);
    assert forall k: nat :: !Owns(st, k, id);
  }
}
