/** internal/billing/usage.go: per-tenant usage from a stream of events. Times are nanoseconds;
    the source's float64 counters are reals here, so rounding is not modelled. */
module Usage {
  import opened Outcomes

  /** "vm.spawn", "vm.destroy", "vm.egress.bytes", "audit.log.bytes", and anything else. */
  datatype Kind = Spawn | Destroy | Egress | AuditLog | Unknown

  /** `ts` is None for the zero time. */
  datatype Report = Report(tenant: string, kind: Kind, vm: string, bytes: real, ts: Option<int>)

  /** A report with its time filled in. */
  datatype Event = Event(tenant: string, kind: Kind, vm: string, bytes: real, ts: int)

  datatype Counters = Counters(vmMinutes: real, egressBytes: real, auditBytes: real)

  datatype Snapshot = Snapshot(vmMinutes: real, egressBytes: real, auditLogGB: real)

  /** `starts` is keyed by tenant|vm. */
  datatype State = State(tenants: map<string, Counters>, starts: map<string, int>)

  const EMPTY := State(map[], map[])
  const ZERO := Counters(0.0, 0.0, 0.0)

  function Key(tenant: string, vm: string): string {
    tenant + "|" + vm
  }

  /** Minutes from `start` to `end`, never negative. */
  function Minutes(start: int, end: int): (m: real)
    ensures m >= 0.0
  {
    if end < start then 0.0 else (end - start) as real / 60_000_000_000.0
  }

  function CountersOf(st: State, tenant: string): Counters {
    if tenant in st.tenants then st.tenants[tenant] else ZERO
  }

  function SnapshotOf(st: State, tenant: string): Snapshot {
    var c := CountersOf(st, tenant);
    Snapshot(c.vmMinutes, c.egressBytes, c.auditBytes / 1_073_741_824.0)
  }

  function Observed(st: State, ev: Event): State {
    if ev.tenant == "" then st else
      var c := CountersOf(st, ev.tenant);
      var known := st.(tenants := st.tenants[ev.tenant := c]);
      var key := Key(ev.tenant, ev.vm);
      match ev.kind
      case Spawn => if ev.vm == "" then known else known.(starts := st.starts[key := ev.ts])
      case Destroy =>
        if ev.vm == "" || key !in st.starts then known
        else State(st.tenants[ev.tenant := c.(vmMinutes := c.vmMinutes + Minutes(st.starts[key], ev.ts))],
                   st.starts - {key})
      case Egress =>
        if ev.bytes < 0.0 then known
        else known.(tenants := st.tenants[ev.tenant := c.(egressBytes := c.egressBytes + ev.bytes)])
      case AuditLog =>
        if ev.bytes < 0.0 then known
        else known.(tenants := st.tenants[ev.tenant := c.(auditBytes := c.auditBytes + ev.bytes)])
      case Unknown => known
  }

  function ObserveAll(events: seq<Event>): State {
    if events == [] then EMPTY else Observed(ObserveAll(events[..|events| - 1]), events[|events| - 1])
  }

  class Aggregator {
    var tenants: map<string, Counters>
    var starts: map<string, int>

    ghost function St(): State
      reads this
    {
      State(tenants, starts)
    }

    constructor ()
      ensures St() == EMPTY
    {
      tenants, starts := map[], map[];
    }

    method Observe(r: Report, now: int)
      modifies this
      ensures r.tenant == "" ==> St() == old(St())
      ensures St() == Observed(old(St()),
              Event(r.tenant, r.kind, r.vm, r.bytes, if r.ts.Some? then r.ts.value else now))
    {
      if r.tenant == "" {
        return;
      }
      var ts := if r.ts.None? then now else r.ts.value;
      if r.tenant !in tenants {
        tenants := tenants[r.tenant := ZERO];
      }
      var st := tenants[r.tenant];
      match r.kind
      case Spawn =>
        if r.vm == "" {
          return;
        }
        starts := starts[r.tenant + "|" + r.vm := ts];
      case Destroy =>
        if r.vm == "" {
          return;
        }
        var key := r.tenant + "|" + r.vm;
        if key !in starts {
          return;
        }
        var started := starts[key];
        starts := starts - {key};
        var minutes := (ts - started) as real / 60_000_000_000.0;
        if minutes < 0.0 {
          minutes := 0.0;
        }
        tenants := tenants[r.tenant := st.(vmMinutes := st.vmMinutes + minutes)];
      case Egress =>
        if r.bytes < 0.0 {
          return;
        }
        tenants := tenants[r.tenant := st.(egressBytes := st.egressBytes + r.bytes)];
      case AuditLog =>
        if r.bytes < 0.0 {
          return;
        }
        tenants := tenants[r.tenant := st.(auditBytes := st.auditBytes + r.bytes)];
      case Unknown =>
    }

    method TakeSnapshot(tenant: string) returns (s: Snapshot)
      ensures s == SnapshotOf(St(), tenant)
      ensures tenant in tenants ==>
                && s.vmMinutes == tenants[tenant].vmMinutes && s.egressBytes == tenants[tenant].egressBytes
                && s.auditLogGB * 1073741824.0 == tenants[tenant].auditBytes
      ensures tenant !in tenants ==> s.vmMinutes == s.egressBytes == s.auditLogGB == 0.0
    {
      if tenant !in tenants {
        return Snapshot(0.0, 0.0, 0.0);
      }
      var st := tenants[tenant];
      return Snapshot(st.vmMinutes, st.egressBytes, st.auditBytes / 1_073_741_824.0);
    }
  }

  // When two tenants can share a key

  /** Neither tenant id continues the other one past a separator. */
  predicate Separated(t: string, u: string) {
    !(t + "|" <= u) && !(u + "|" <= t)
  }

  lemma SharedKeyMeansPrefix(t: string, v: string, u: string, w: string)
    requires t != u && Key(t, v) == Key(u, w)
    ensures !Separated(t, u)
  {
    var k := Key(t, v);
    assert t == k[..|t|] && u == k[..|u|];
    if |t| < |u| {
      assert t + "|" == k[..|t| + 1] == u[..|t| + 1];
    } else {
      assert u + "|" == k[..|u| + 1] == t[..|u| + 1];
    }
  }

  lemma KeysApart(t: string, v: string, u: string, w: string)
    requires t != u && Separated(t, u)
    ensures Key(t, v) != Key(u, w)
  {
    if Key(t, v) == Key(u, w) {
      SharedKeyMeansPrefix(t, v, u, w);
      assert false;
    }
  }

  lemma KeyInjective(u: string, v: string, w: string)
    requires Key(u, v) == Key(u, w)
    ensures v == w
  {
    assert Key(u, v)[|u| + 1..] == v && Key(u, w)[|u| + 1..] == w;
  }

  lemma BarInside(t: string, u: string)
    requires t + "|" <= u
    ensures '|' in u
  {
    assert u[|t|] == '|';
  }

  /** Ids without the separator are always apart. */
  lemma NoBarIsSeparated(t: string, u: string)
    requires '|' !in t && '|' !in u
    ensures Separated(t, u)
  {
    if t + "|" <= u {
      BarInside(t, u);
      assert false;
    }
    if u + "|" <= t {
      BarInside(u, t);
      assert false;
    }
  }

  // What a tenant's counters are, from the history alone

  /** The index of the spawn a destroy of this VM would close now: the VM's latest spawn or
      destroy, if that is a spawn. */
  function OpenSpawn(events: seq<Event>, tenant: string, vm: string): (r: Option<nat>)
    ensures r.Some? ==> r.value < |events| && events[r.value].kind.Spawn?
    ensures r.Some? ==> events[r.value].tenant == tenant && events[r.value].vm == vm
  {
    if events == [] then None else
      var n := |events| - 1;
      var e := events[n];
      if e.tenant == tenant && e.vm == vm && e.kind.Spawn? then Some(n)
      else if e.tenant == tenant && e.vm == vm && e.kind.Destroy? then None
      else OpenSpawn(events[..n], tenant, vm)
  }

  /** The spawn that event `e`, a destroy coming after `before`, is billed against. */
  function BilledSpawn(before: seq<Event>, e: Event): (r: Option<nat>)
    ensures r.Some? ==> r.value < |before|
  {
    if e.kind.Destroy? && e.vm != "" then OpenSpawn(before, e.tenant, e.vm) else None
  }

  /** What event `e` adds to its own tenant when it comes after `before`. */
  function Charge(before: seq<Event>, e: Event): Counters {
    var spawn := BilledSpawn(before, e);
    if spawn.Some? then Counters(Minutes(before[spawn.value].ts, e.ts), 0.0, 0.0)
    else if e.kind.Egress? && e.bytes >= 0.0 then Counters(0.0, e.bytes, 0.0)
    else if e.kind.AuditLog? && e.bytes >= 0.0 then Counters(0.0, 0.0, e.bytes)
    else ZERO
  }

  function Plus(a: Counters, b: Counters): Counters {
    Counters(a.vmMinutes + b.vmMinutes, a.egressBytes + b.egressBytes, a.auditBytes + b.auditBytes)
  }

  /** The sum of a tenant's charges. */
  function Bill(events: seq<Event>, u: string): Counters {
    if events == [] then ZERO else
      var n := |events| - 1;
      var before := Bill(events[..n], u);
      if events[n].tenant == u then Plus(before, Charge(events[..n], events[n])) else before
  }

  predicate OthersSeparated(events: seq<Event>, u: string) {
    forall e | e in events && e.tenant != u :: Separated(e.tenant, u)
  }

  /** The open interval of one VM is the one the history shows. */
  predicate StartMatches(st: State, events: seq<Event>, u: string, vm: string) {
    var open := OpenSpawn(events, u, vm);
    && (Key(u, vm) in st.starts <==> open.Some?)
    && (open.Some? ==> st.starts[Key(u, vm)] == events[open.value].ts)
  }

  /** The open intervals of tenant `u` are the ones its history shows. */
  ghost predicate StartsMatch(st: State, events: seq<Event>, u: string) {
    forall vm | vm != "" :: StartMatches(st, events, u, vm)
  }

  lemma StartsStep(st: State, init: seq<Event>, e: Event, u: string)
    requires u != "" && StartsMatch(st, init, u) && (e.tenant != u ==> Separated(e.tenant, u))
    ensures StartsMatch(Observed(st, e), init + [e], u)
  {
    var next := Observed(st, e);
    assert (init + [e])[..|init|] == init;
    forall vm | vm != "" ensures StartMatches(next, init + [e], u, vm) {
      assert StartMatches(st, init, u, vm);
      if e.tenant != u {
        KeysApart(e.tenant, e.vm, u, vm);
      } else if e.vm != vm && Key(u, e.vm) == Key(u, vm) {
        KeyInjective(u, e.vm, vm);
      }
    }
  }

  /** What an event does to its own tenant's counters, given the VM's open start if any. */
  function Charged(c: Counters, e: Event, start: Option<int>): Counters {
    if e.kind.Destroy? && e.vm != "" && start.Some? then c.(vmMinutes := c.vmMinutes + Minutes(start.value, e.ts))
    else if e.kind.Egress? && e.bytes >= 0.0 then c.(egressBytes := c.egressBytes + e.bytes)
    else if e.kind.AuditLog? && e.bytes >= 0.0 then c.(auditBytes := c.auditBytes + e.bytes)
    else c
  }

  function StartOf(st: State, key: string): Option<int> {
    if key in st.starts then Some(st.starts[key]) else None
  }

  lemma ObservedCharges(st: State, e: Event)
    requires e.tenant != ""
    ensures CountersOf(Observed(st, e), e.tenant)
         == Charged(CountersOf(st, e.tenant), e, StartOf(st, Key(e.tenant, e.vm)))
  {
  }

  lemma ChargedIsCharge(c: Counters, init: seq<Event>, e: Event, start: Option<int>)
    requires e.vm != "" ==>
      var open := OpenSpawn(init, e.tenant, e.vm); start == if open.Some? then Some(init[open.value].ts) else None
    ensures Charged(c, e, start) == Plus(c, Charge(init, e))
  {
  }

  lemma ChargeStep(st: State, init: seq<Event>, e: Event)
    requires e.tenant != "" && (e.vm != "" ==> StartMatches(st, init, e.tenant, e.vm))
    ensures CountersOf(Observed(st, e), e.tenant) == Plus(CountersOf(st, e.tenant), Charge(init, e))
  {
    ObservedCharges(st, e);
    ChargedIsCharge(CountersOf(st, e.tenant), init, e, StartOf(st, Key(e.tenant, e.vm)));
  }

  lemma OtherCounters(st: State, e: Event, u: string)
    requires e.tenant != u
    ensures CountersOf(Observed(st, e), u) == CountersOf(st, u)
  {
  }

  lemma BillStep(st: State, init: seq<Event>, e: Event, u: string)
    requires u != "" && CountersOf(st, u) == Bill(init, u) && StartsMatch(st, init, u)
    ensures CountersOf(Observed(st, e), u) == Bill(init + [e], u)
  {
    assert (init + [e])[..|init|] == init;
    if e.tenant == u {
      assert e.vm != "" ==> StartMatches(st, init, u, e.vm);
      ChargeStep(st, init, e);
    } else {
      OtherCounters(st, e, u);
    }
  }

  /** After any events, a tenant whose id no other tenant's extends past a "|", nor the reverse,
      is billed exactly its own history: for each destroy, the time since the latest spawn of
      that VM if nothing closed it yet, never less than zero, and every non-negative byte count. */
  lemma {:induction false} BilledByHistory(events: seq<Event>, u: string)
    requires u != "" && OthersSeparated(events, u)
    ensures CountersOf(ObserveAll(events), u) == Bill(events, u)
    ensures StartsMatch(ObserveAll(events), events, u)
  {
    if events != [] {
      var n := |events| - 1;
      var init, e := events[..n], events[n];
      assert events == init + [e];
      assert e in events && forall x | x in init :: x in events;
      BilledByHistory(init, u);
      StartsStep(ObserveAll(init), init, e, u);
      BillStep(ObserveAll(init), init, e, u);
    }
  }

  // What a snapshot shows, from the events alone

  /** A tenant's egress: the sum of the byte counts it reported, negative ones ignored. */
  function EgressTotal(events: seq<Event>, u: string): real {
    if events == [] then 0.0 else
      var n := |events| - 1;
      var e := events[n];
      EgressTotal(events[..n], u) + if e.tenant == u && e.kind == Egress && e.bytes >= 0.0 then e.bytes else 0.0
  }

  /** Its audit log volume, likewise. */
  function AuditTotal(events: seq<Event>, u: string): real {
    if events == [] then 0.0 else
      var n := |events| - 1;
      var e := events[n];
      AuditTotal(events[..n], u) + if e.tenant == u && e.kind == AuditLog && e.bytes >= 0.0 then e.bytes else 0.0
  }

  /** Event i is the latest spawn or destroy of the VM, and a spawn. */
  predicate LatestSpawn(events: seq<Event>, tenant: string, vm: string, i: nat) {
    && i < |events| && events[i].tenant == tenant && events[i].vm == vm && events[i].kind == Spawn
    && forall j | i < j < |events| && events[j].tenant == tenant && events[j].vm == vm ::
         events[j].kind != Spawn && events[j].kind != Destroy
  }

  lemma {:induction false} OpenSpawnIff(events: seq<Event>, tenant: string, vm: string, i: nat)
    ensures OpenSpawn(events, tenant, vm) == Some(i) <==> LatestSpawn(events, tenant, vm, i)
  {
    if events != [] {
      var n := |events| - 1;
      var front := events[..n];
      OpenSpawnIff(front, tenant, vm, i);
      assert forall j | 0 <= j < n :: front[j] == events[j];
      assert LatestSpawn(events, tenant, vm, i) && i < n ==> LatestSpawn(front, tenant, vm, i);
    }
  }

  /** What a destroy coming after `before` is billed, in nanoseconds: the time since the latest
      spawn of its VM, if no destroy came since, and never less than nothing. */
  function BilledNanos(before: seq<Event>, e: Event): int {
    if e.kind != Destroy || e.vm == "" then 0
    else
      match OpenSpawn(before, e.tenant, e.vm)
      case None => 0
      case Some(i) => if e.ts > before[i].ts then e.ts - before[i].ts else 0
  }

  function NanosTotal(events: seq<Event>, u: string): int {
    if events == [] then 0 else
      var n := |events| - 1;
      NanosTotal(events[..n], u) + if events[n].tenant == u then BilledNanos(events[..n], events[n]) else 0
  }

  lemma {:induction false} BillIsTotals(events: seq<Event>, u: string)
    ensures Bill(events, u).egressBytes == EgressTotal(events, u)
    ensures Bill(events, u).auditBytes == AuditTotal(events, u)
    ensures Bill(events, u).vmMinutes * 60000000000.0 == NanosTotal(events, u) as real
  {
    if events != [] {
      var n := |events| - 1;
      BillIsTotals(events[..n], u);
      if events[n].tenant == u {
        ChargeIsTotals(events[..n], events[n]);
      }
    }
  }

  lemma ChargeIsTotals(before: seq<Event>, e: Event)
    ensures var c := Charge(before, e);
            && c.egressBytes == (if e.kind == Egress && e.bytes >= 0.0 then e.bytes else 0.0)
            && c.auditBytes == (if e.kind == AuditLog && e.bytes >= 0.0 then e.bytes else 0.0)
            && c.vmMinutes * 60000000000.0 == BilledNanos(before, e) as real
  {
  }

  /** A separated tenant's snapshot after any events: its egress bytes, its audit bytes in units of
      2^30, and the nanoseconds of its VMs in minutes. */
  lemma SnapshotIsTotals(events: seq<Event>, u: string)
    requires u != "" && OthersSeparated(events, u)
    ensures var s := SnapshotOf(ObserveAll(events), u);
            && s.egressBytes == EgressTotal(events, u)
            && s.auditLogGB * 1073741824.0 == AuditTotal(events, u)
            && s.vmMinutes * 60000000000.0 == NanosTotal(events, u) as real
  {
    BilledByHistory(events, u);
    BillIsTotals(events, u);
  }

  /** Events without a tenant are dropped, and a tenant nobody reported for has nothing. */
  lemma NothingWithoutATenant(st: State, e: Event, u: string)
    ensures e.tenant == "" ==> Observed(st, e) == st
    ensures u !in st.tenants ==> SnapshotOf(st, u) == Snapshot(0.0, 0.0, 0.0)
  {
  }

  // Isolation

  function OwnEvents(events: seq<Event>, u: string): seq<Event> {
    if events == [] then [] else
      var n := |events| - 1;
      OwnEvents(events[..n], u) + if events[n].tenant == u then [events[n]] else []
  }

  /** What tenant `u` can see of two states is the same. */
  ghost predicate Alike(a: State, b: State, u: string) {
    && CountersOf(a, u) == CountersOf(b, u)
    && forall vm :: StartOf(a, Key(u, vm)) == StartOf(b, Key(u, vm))
  }

  lemma OwnCounters(a: State, b: State, u: string, e: Event)
    requires Alike(a, b, u) && e.tenant == u
    ensures CountersOf(Observed(a, e), u) == CountersOf(Observed(b, e), u)
  {
    if u != "" {
      ObservedCharges(a, e);
      ObservedCharges(b, e);
    }
  }

  lemma OwnStart(a: State, b: State, u: string, e: Event, vm: string)
    requires Alike(a, b, u) && e.tenant == u
    ensures StartOf(Observed(a, e), Key(u, vm)) == StartOf(Observed(b, e), Key(u, vm))
  {
    assert StartOf(a, Key(u, vm)) == StartOf(b, Key(u, vm)) && StartOf(a, Key(u, e.vm)) == StartOf(b, Key(u, e.vm));
  }

  lemma OwnStep(a: State, b: State, u: string, e: Event)
    requires Alike(a, b, u) && e.tenant == u
    ensures Alike(Observed(a, e), Observed(b, e), u)
  {
    OwnCounters(a, b, u, e);
    forall vm ensures StartOf(Observed(a, e), Key(u, vm)) == StartOf(Observed(b, e), Key(u, vm)) {
      OwnStart(a, b, u, e, vm);
    }
  }

  lemma OtherStep(a: State, b: State, u: string, e: Event)
    requires Alike(a, b, u) && e.tenant != u && Separated(e.tenant, u)
    ensures Alike(Observed(a, e), b, u)
  {
    forall vm ensures StartOf(Observed(a, e), Key(u, vm)) == StartOf(a, Key(u, vm)) {
      KeysApart(e.tenant, e.vm, u, vm);
    }
  }

  lemma {:induction false} OwnEventsSuffice(events: seq<Event>, u: string)
    requires OthersSeparated(events, u)
    ensures Alike(ObserveAll(events), ObserveAll(OwnEvents(events, u)), u)
  {
    if events != [] {
      var n := |events| - 1;
      var init, e := events[..n], events[n];
      assert e in events;
      OwnEventsSuffice(init, u);
      var own := OwnEvents(init, u);
      if e.tenant == u {
        OwnStep(ObserveAll(init), ObserveAll(own), u, e);
        assert (own + [e])[..|own|] == own;
      } else {
        OtherStep(ObserveAll(init), ObserveAll(own), u, e);
        assert OwnEvents(events, u) == own;
      }
    }
  }

  ghost predicate UnaffectedBy(u: string, t: string) {
    forall events: seq<Event> | (forall e | e in events :: e.tenant == u || e.tenant == t) ::
      SnapshotOf(ObserveAll(events), u) == SnapshotOf(ObserveAll(OwnEvents(events, u)), u)
  }

  /** A spawn by `t` and a destroy by `u` that meet under one key. */
  lemma SharedKeyBills(t: string, v: string, u: string, w: string) returns (events: seq<Event>)
    requires t != u && t != "" && u != "" && v != "" && w != "" && Key(t, v) == Key(u, w)
    ensures forall e | e in events :: e.tenant == u || e.tenant == t
    ensures SnapshotOf(ObserveAll(events), u).vmMinutes == 1.0
    ensures SnapshotOf(ObserveAll(OwnEvents(events, u)), u).vmMinutes == 0.0
  {
    var spawn := Event(t, Spawn, v, 0.0, 0);
    var destroy := Event(u, Destroy, w, 0.0, 60_000_000_000);
    events := [spawn, destroy];
    assert events[..1] == [spawn] && [spawn][..0] == [];
    assert ObserveAll([spawn]) == Observed(EMPTY, spawn);
    assert ObserveAll(events) == Observed(Observed(EMPTY, spawn), destroy);
    assert OwnEvents([spawn], u) == OwnEvents([spawn][..0], u) + [] == [];
    assert OwnEvents(events, u) == OwnEvents(events[..1], u) + [destroy] == [destroy];
    assert [destroy][..0] == [];
    assert ObserveAll([destroy]) == Observed(EMPTY, destroy);
  }

  /** A tenant's snapshot never depends on another tenant's events exactly when neither id
      continues the other past a "|". */
  lemma IsolatedIffSeparated(t: string, u: string)
    requires t != u && t != "" && u != ""
    ensures UnaffectedBy(u, t) <==> Separated(t, u)
  {
    if Separated(t, u) {
      forall events: seq<Event> | (forall e | e in events :: e.tenant == u || e.tenant == t)
        ensures SnapshotOf(ObserveAll(events), u) == SnapshotOf(ObserveAll(OwnEvents(events, u)), u)
      {
        OwnEventsSuffice(events, u);
      }
    } else {
      var events;
      if t + "|" <= u {
        var x := u[|t| + 1..];
        assert u == t + "|" + x;
        assert Key(t, x + "|v") == Key(u, "v");
        events := SharedKeyBills(t, x + "|v", u, "v");
      } else {
        var x := t[|u| + 1..];
        assert t == u + "|" + x;
        assert Key(t, "v") == Key(u, x + "|v");
        events := SharedKeyBills(t, "v", u, x + "|v");
      }
      assert SnapshotOf(ObserveAll(events), u) != SnapshotOf(ObserveAll(OwnEvents(events, u)), u);
    }
  }

  // No double billing, no decrease

  /** The index of the spawn whose start is open under a key, whoever's events made it. */
  function OpenUnder(events: seq<Event>, key: string): (r: Option<nat>)
    ensures r.Some? ==> r.value < |events| && events[r.value].kind.Spawn?
    ensures r.Some? ==> Key(events[r.value].tenant, events[r.value].vm) == key
  {
    if events == [] then None else
      var n := |events| - 1;
      var e := events[n];
      if !Timed(e) || Key(e.tenant, e.vm) != key then OpenUnder(events[..n], key)
      else if e.kind.Spawn? then Some(n)
      else None
  }

  /** An event that opens or closes a start. */
  predicate Timed(e: Event) {
    e.tenant != "" && e.vm != "" && (e.kind.Spawn? || e.kind.Destroy?)
  }

  /** The machine's open starts are those, for any stream and any ids. */
  lemma {:induction false} StartsAreOpenSpawns(events: seq<Event>, key: string)
    ensures var open := OpenUnder(events, key);
            StartOf(ObserveAll(events), key) == if open.Some? then Some(events[open.value].ts) else None
  {
    if events != [] {
      StartsAreOpenSpawns(events[..|events| - 1], key);
    }
  }

  /** For a separated tenant, what is open under its keys is what its own history shows. */
  lemma {:induction false} OpenUnderIsOwn(events: seq<Event>, u: string, vm: string)
    requires u != "" && vm != "" && OthersSeparated(events, u)
    ensures OpenUnder(events, Key(u, vm)) == OpenSpawn(events, u, vm)
  {
    if events != [] {
      var n := |events| - 1;
      var e := events[n];
      assert e in events && forall x | x in events[..n] :: x in events;
      OpenUnderIsOwn(events[..n], u, vm);
      if e.tenant != u {
        KeysApart(e.tenant, e.vm, u, vm);
      } else if Key(u, e.vm) == Key(u, vm) {
        KeyInjective(u, e.vm, vm);
      }
    }
  }

  /** The spawn that event k bills when the stream is observed, if it bills one. */
  function Bills(events: seq<Event>, k: nat): (r: Option<nat>)
    requires k < |events|
    ensures r.Some? ==> r.value < k
  {
    var e := events[k];
    if Timed(e) && e.kind.Destroy? then OpenUnder(events[..k], Key(e.tenant, e.vm)) else None
  }

  /** Observing event k adds the time since the spawn it bills to its tenant's minutes, and no
      minutes if it bills none. */
  lemma BillsWhatItAdds(events: seq<Event>, k: nat)
    requires k < |events| && events[k].tenant != ""
    ensures var before := ObserveAll(events[..k]); var e := events[k]; var spawn := Bills(events, k);
            CountersOf(Observed(before, e), e.tenant).vmMinutes
            == CountersOf(before, e.tenant).vmMinutes
               + if spawn.Some? then Minutes(events[spawn.value].ts, e.ts) else 0.0
  {
    var e := events[k];
    StartsAreOpenSpawns(events[..k], Key(e.tenant, e.vm));
    ObservedCharges(ObserveAll(events[..k]), e);
  }

  lemma {:induction false} OpenIsAfter(events: seq<Event>, key: string, i: nat)
    requires i < |events| && Timed(events[i]) && events[i].kind.Destroy? && Key(events[i].tenant, events[i].vm) == key
    ensures OpenUnder(events, key).Some? ==> OpenUnder(events, key).value > i
  {
    var n := |events| - 1;
    if i < n {
      OpenIsAfter(events[..n], key, i);
    }
  }

  /** In any stream, shared keys or not, no spawn is billed twice, and two destroys that meet under
      one key bill disjoint intervals. */
  lemma NoSpawnIsBilledTwice(events: seq<Event>, i: nat, k: nat)
    requires i < k < |events| && Bills(events, i).Some? && Bills(events, k).Some?
    ensures Bills(events, i).value != Bills(events, k).value
    ensures Key(events[i].tenant, events[i].vm) == Key(events[k].tenant, events[k].vm) ==>
              Bills(events, i).value < i < Bills(events, k).value < k
  {
    var a, b := Bills(events, i).value, Bills(events, k).value;
    assert events[..i][a] == events[a] && events[..k][b] == events[b];
    if Key(events[i].tenant, events[i].vm) == Key(events[k].tenant, events[k].vm) {
      OpenIsAfter(events[..k], Key(events[k].tenant, events[k].vm), i);
    }
  }

  /** No event makes any tenant's counters smaller. */
  lemma CountersNeverDecrease(st: State, ev: Event, u: string)
    ensures var before := CountersOf(st, u); var after := CountersOf(Observed(st, ev), u);
            && before.vmMinutes <= after.vmMinutes
            && before.egressBytes <= after.egressBytes
            && before.auditBytes <= after.auditBytes
  {
  }
}
