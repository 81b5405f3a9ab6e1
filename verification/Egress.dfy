/** internal/cli/egress.go: rule ids and the loop that applies a template, with a connection that
    may fail at any call and be tried again. */
module Egress {
  import opened Text

  // Rule ids

  /** unicode.ToLower, character by character. */
  type Lowering = char -> char

  function ReplaceAll(s: string, from: char, to: char): string {
    seq(|s|, i requires 0 <= i < |s| => if s[i] == from then to else s[i])
  }

  function Lowered(lower: Lowering, s: string): string {
    seq(|s|, i requires 0 <= i < |s| => lower(s[i]))
  }

  function TemplateRuleId(lower: Lowering, tplName: string, host: string): string {
    "tpl-" + tplName + "-" + ReplaceAll(ReplaceAll(Lowered(lower, host), '.', '-'), '*', 'x')
  }

  /** Two characters an id does not tell apart: letter case, dot and dash, star and x. */
  predicate Confusable(lower: Lowering, c: char, d: char) {
    || lower(c) == lower(d)
    || (lower(c) in ['.', '-'] && lower(d) in ['.', '-'])
    || (lower(c) in ['*', 'x'] && lower(d) in ['*', 'x'])
  }

  ghost predicate AllConfusable(lower: Lowering, g: string, h: string) {
    |g| == |h| && forall k | 0 <= k < |g| :: Confusable(lower, g[k], h[k])
  }

  /** Exactly the hosts that agree up to those characters share an id. */
  lemma SameIdIffConfusable(lower: Lowering, tplName: string, g: string, h: string)
    ensures TemplateRuleId(lower, tplName, g) == TemplateRuleId(lower, tplName, h)
       <==> AllConfusable(lower, g, h)
  {
    var head := "tpl-" + tplName + "-";
    var a := ReplaceAll(ReplaceAll(Lowered(lower, g), '.', '-'), '*', 'x');
    var b := ReplaceAll(ReplaceAll(Lowered(lower, h), '.', '-'), '*', 'x');
    SamePrefix(head, a, b);
    assert |a| == |g| && |b| == |h|;
    if |g| == |h| {
      forall k | 0 <= k < |g| ensures a[k] == b[k] <==> Confusable(lower, g[k], h[k]) {
      }
    }
  }

  lemma SamePrefix(head: string, a: string, b: string)
    ensures head + a == head + b <==> a == b
  {
    assert (head + a)[|head|..] == a && (head + b)[|head|..] == b;
  }

  // What a template asks for

  datatype Rule = Rule(
    id: string, workspaceId: string, action: string, proto: string, hostPattern: string,
    portStart: int, portEnd: int, priority: int, createdAt: int, createdBy: string)

  /** The rules of one workspace, by id. */
  type Rules = map<string, Rule>

  datatype Template = Template(name: string, hosts: seq<string>)

  /** A host's place in the template: blank, or the rule it asks for, creation time aside. */
  datatype Slot = Blank | Wanted(rule: Rule)

  function SlotFor(tpl: Template, workspace: string, lower: Lowering, i: nat): Slot
    requires i < |tpl.hosts|
  {
    var host := TrimSpace(tpl.hosts[i]);
    if host == "" then Blank else
      Wanted(Rule(TemplateRuleId(lower, tpl.name, host), workspace, "allow", "tcp", host, 443, 443, 1000 - i, 0,
                  "egress-template:" + tpl.name))
  }

  function Plan(tpl: Template, workspace: string, lower: Lowering): seq<Slot> {
    seq(|tpl.hosts|, i requires 0 <= i < |tpl.hosts| => SlotFor(tpl, workspace, lower, i))
  }

  /** Earlier hosts rank higher, so no two hosts ask for the same rule. */
  ghost predicate Ranked(slots: seq<Slot>) {
    forall i, j | 0 <= i < j < |slots| && slots[i].Wanted? && slots[j].Wanted? ::
      slots[i].rule.priority > slots[j].rule.priority
  }

  lemma PlanIsRanked(tpl: Template, workspace: string, lower: Lowering)
    ensures Ranked(Plan(tpl, workspace, lower))
  {
    var slots := Plan(tpl, workspace, lower);
    forall i | 0 <= i < |slots| && slots[i].Wanted? ensures slots[i].rule.priority == 1000 - i {
      assert slots[i] == SlotFor(tpl, workspace, lower, i);
    }
  }

  // The server and one attempt

  /** What becomes of a create call: it works, it never arrives, or its answer is lost. */
  datatype Delivery = Done | Refused | AnswerLost

  function At(net: seq<Delivery>, i: nat): Delivery {
    if i < |net| then net[i] else Done
  }

  datatype Progress = Progress(rules: Rules, created: nat, skipped: nat, failed: bool)

  function Step(slot: Slot, now: int, present: set<string>, p: Progress, d: Delivery): Progress {
    if slot.Blank? then p
    else if slot.rule.id in present then p.(skipped := p.skipped + 1)
    else if d.Refused? then p.(failed := true)
    else
      var stored := p.(rules := p.rules[slot.rule.id := slot.rule.(createdAt := now)]);
      if d.AnswerLost? then stored.(failed := true) else stored.(created := p.created + 1)
  }

  /** An attempt over some slots: what was there at its start is what it skips. */
  function Attempt(slots: seq<Slot>, now: int, rules: Rules, net: seq<Delivery>): Progress {
    if slots == [] then Progress(rules, 0, 0, false) else
      var n := |slots| - 1;
      var p := Attempt(slots[..n], now, rules, net);
      if p.failed then p else Step(slots[n], now, rules.Keys, p, At(net, n))
  }

  class Server {
    var rules: Rules

    constructor (initial: Rules)
      ensures rules == initial
    {
      rules := initial;
    }

    /** Storing is an upsert: a second rule with the same id replaces the first. */
    method CreateRule(rule: Rule, d: Delivery) returns (ok: bool)
      modifies this
      ensures ok <==> d.Done?
      ensures rules == if d.Refused? then old(rules) else old(rules)[rule.id := rule]
    {
      if !d.Refused? {
        rules := rules[rule.id := rule];
      }
      ok := d.Done?;
    }
  }

  method ApplySlots(api: Server, slots: seq<Slot>, now: int, net: seq<Delivery>)
    returns (created: nat, skipped: nat, ok: bool)
    modifies api
    ensures Progress(api.rules, created, skipped, !ok) == Attempt(slots, now, old(api.rules), net)
  {
    var present := api.rules.Keys;
    created, skipped := 0, 0;
    var i := 0;
    while i < |slots|
      invariant 0 <= i <= |slots|
      invariant Progress(api.rules, created, skipped, false) == Attempt(slots[..i], now, old(api.rules), net)
    {
      AttemptSnoc(slots, now, old(api.rules), net, i);
      var slot := slots[i];
      if slot.Blank? {
        i := i + 1;
        continue;
      }
      if slot.rule.id in present {
        skipped := skipped + 1;
        i := i + 1;
        continue;
      }
      var sent := api.CreateRule(slot.rule.(createdAt := now), At(net, i));
      if !sent {
        FailedStays(slots, now, old(api.rules), net, i + 1);
        return created, skipped, false;
      }
      created := created + 1;
      i := i + 1;
    }
    assert slots[..i] == slots;
    ok := true;
  }

  method Apply(api: Server, tpl: Template, workspace: string, lower: Lowering, now: int, net: seq<Delivery>)
    returns (created: nat, skipped: nat, ok: bool)
    modifies api
    ensures Progress(api.rules, created, skipped, !ok)
         == Attempt(Plan(tpl, workspace, lower), now, old(api.rules), net)
  {
    created, skipped, ok := ApplySlots(api, Plan(tpl, workspace, lower), now, net);
  }

  lemma AttemptSnoc(slots: seq<Slot>, now: int, rules: Rules, net: seq<Delivery>, i: nat)
    requires i < |slots|
    ensures var p := Attempt(slots[..i], now, rules, net);
            Attempt(slots[..i + 1], now, rules, net)
            == if p.failed then p else Step(slots[i], now, rules.Keys, p, At(net, i))
  {
    assert slots[..i + 1][..i] == slots[..i];
  }

  lemma {:induction false} FailedStays(slots: seq<Slot>, now: int, rules: Rules, net: seq<Delivery>, n: nat)
    requires n <= |slots| && Attempt(slots[..n], now, rules, net).failed
    ensures Attempt(slots, now, rules, net) == Attempt(slots[..n], now, rules, net)
  {
    var m := |slots| - 1;
    if n <= m {
      assert slots[..m][..n] == slots[..n];
      FailedStays(slots[..m], now, rules, net, n);
    } else {
      assert slots[..n] == slots;
    }
  }

  // What an attempt does

  function WantedHosts(slots: seq<Slot>): nat {
    if slots == [] then 0 else
      WantedHosts(slots[..|slots| - 1]) + if slots[|slots| - 1].Wanted? then 1 else 0
  }

  /** The ids a template stands for. */
  function Ids(slots: seq<Slot>): set<string> {
    set i: nat | i < |slots| && slots[i].Wanted? :: slots[i].rule.id
  }

  lemma IdsSnoc(slots: seq<Slot>)
    requires slots != []
    ensures var last := slots[|slots| - 1];
            Ids(slots) == Ids(slots[..|slots| - 1]) + if last.Wanted? then {last.rule.id} else {}
  {
    var n := |slots| - 1;
    forall id | id in Ids(slots) ensures id in Ids(slots[..n]) || (slots[n].Wanted? && id == slots[n].rule.id) {
      var i: nat :| i < |slots| && slots[i].Wanted? && slots[i].rule.id == id;
      assert i < n ==> slots[..n][i] == slots[i];
    }
    forall id | id in Ids(slots[..n]) ensures id in Ids(slots) {
      var i: nat :| i < n && slots[..n][i].Wanted? && slots[..n][i].rule.id == id;
      assert slots[i] == slots[..n][i];
    }
  }

  lemma {:induction false} ListedStay(slots: seq<Slot>, now: int, rules: Rules, net: seq<Delivery>)
    ensures var p := Attempt(slots, now, rules, net);
            forall id | id in rules :: id in p.rules && p.rules[id] == rules[id]
  {
    if slots == [] {
    } else {
      ListedStay(slots[..|slots| - 1], now, rules, net);
    }
  }

  lemma {:induction false} CreatedAreIds(slots: seq<Slot>, now: int, rules: Rules, net: seq<Delivery>)
    ensures Attempt(slots, now, rules, net).rules.Keys <= rules.Keys + Ids(slots)
    ensures var p := Attempt(slots, now, rules, net);
            !p.failed ==> Ids(slots) <= p.rules.Keys
  {
    if slots == [] {
    } else {
      ListedStay(slots[..|slots| - 1], now, rules, net);
      CreatedAreIds(slots[..|slots| - 1], now, rules, net);
      IdsSnoc(slots);
    }
  }

  /** Everything listed at the start is left as it is, nothing outside the template appears, and
      an attempt that goes through leaves every id of the template. */
  lemma AttemptFrame(slots: seq<Slot>, now: int, rules: Rules, net: seq<Delivery>)
    ensures var p := Attempt(slots, now, rules, net);
            && rules.Keys <= p.rules.Keys <= rules.Keys + Ids(slots)
            && (forall id | id in rules :: p.rules[id] == rules[id])
            && (!p.failed ==> p.rules.Keys == rules.Keys + Ids(slots))
  {
    ListedStay(slots, now, rules, net);
    CreatedAreIds(slots, now, rules, net);
  }

  /** Every host that is not blank is either created or skipped. */
  lemma {:induction false} EveryHostIsCounted(slots: seq<Slot>, now: int, rules: Rules, net: seq<Delivery>)
    requires !Attempt(slots, now, rules, net).failed
    ensures var p := Attempt(slots, now, rules, net);
            p.created + p.skipped == WantedHosts(slots)
  {
    if slots == [] {
    } else {
      EveryHostIsCounted(slots[..|slots| - 1], now, rules, net);
    }
  }

  /** With every id there already, an attempt sends nothing, whatever the connection would do. */
  lemma {:induction false} NothingToCreate(slots: seq<Slot>, now: int, rules: Rules, net: seq<Delivery>)
    requires Ids(slots) <= rules.Keys
    ensures Attempt(slots, now, rules, net) == Progress(rules, 0, WantedHosts(slots), false)
  {
    if slots == [] {
    } else {
      IdsSnoc(slots);
      NothingToCreate(slots[..|slots| - 1], now, rules, net);
    }
  }

  // Trying again

  /** One try: its time, and what the connection does during it. */
  datatype Try = Try(now: int, net: seq<Delivery>)

  function Retried(slots: seq<Slot>, rules: Rules, tries: seq<Try>): Rules {
    if tries == [] then rules else
      var n := |tries| - 1;
      Attempt(slots, tries[n].now, Retried(slots, rules, tries[..n]), tries[n].net).rules
  }

  /** The last try goes through. */
  predicate Succeeds(slots: seq<Slot>, rules: Rules, tries: seq<Try>) {
    tries != [] &&
    var n := |tries| - 1;
    !Attempt(slots, tries[n].now, Retried(slots, rules, tries[..n]), tries[n].net).failed
  }

  lemma {:induction false} RetriedFrame(slots: seq<Slot>, rules: Rules, tries: seq<Try>)
    ensures var after := Retried(slots, rules, tries);
            && rules.Keys <= after.Keys <= rules.Keys + Ids(slots)
            && forall id | id in rules :: after[id] == rules[id]
  {
    if tries == [] {
    } else {
      var n := |tries| - 1;
      RetriedFrame(slots, rules, tries[..n]);
      AttemptFrame(slots, tries[n].now, Retried(slots, rules, tries[..n]), tries[n].net);
    }
  }

  lemma {:induction false} UndisturbedSucceeds(slots: seq<Slot>, now: int, rules: Rules)
    ensures !Attempt(slots, now, rules, []).failed
  {
    if slots == [] {
    } else {
      UndisturbedSucceeds(slots[..|slots| - 1], now, rules);
    }
  }

  /** However often it fails, once a try goes through the ids are those of one undisturbed apply,
      the rules there before are untouched, and another apply changes nothing. */
  lemma RetryingConverges(slots: seq<Slot>, rules: Rules, tries: seq<Try>, again: Try)
    requires Succeeds(slots, rules, tries)
    ensures var after := Retried(slots, rules, tries);
            && after.Keys == rules.Keys + Ids(slots)
            && after.Keys == Attempt(slots, again.now, rules, []).rules.Keys
            && (forall id | id in rules :: after[id] == rules[id])
            && Attempt(slots, again.now, after, again.net) == Progress(after, 0, WantedHosts(slots), false)
  {
    var n := |tries| - 1;
    var mid := Retried(slots, rules, tries[..n]);
    RetriedFrame(slots, rules, tries[..n]);
    AttemptFrame(slots, tries[n].now, mid, tries[n].net);
    RetriedFrame(slots, rules, tries);
    UndisturbedSucceeds(slots, again.now, rules);
    AttemptFrame(slots, again.now, rules, []);
    NothingToCreate(slots, again.now, Retried(slots, rules, tries), again.net);
  }

  // The rules themselves, apart from when they were created

  predicate SameButForTime(r: Rule, q: Rule) {
    r.(createdAt := 0) == q.(createdAt := 0)
  }

  ghost predicate SameRules(a: Rules, b: Rules) {
    a.Keys == b.Keys && forall id | id in a :: SameButForTime(a[id], b[id])
  }

  /** No two hosts still to be created share an id. */
  ghost predicate IdsDistinct(slots: seq<Slot>, rules: Rules) {
    forall i, j | 0 <= i < j < |slots| && slots[i].Wanted? && slots[j].Wanted? && slots[i].rule.id !in rules ::
      slots[i].rule.id != slots[j].rule.id
  }

  predicate Asks(slot: Slot, rule: Rule) {
    slot.Wanted? && slot.rule.id == rule.id && SameButForTime(slot.rule, rule)
  }

  /** Every rule that is new is one some host asked for. */
  ghost predicate Origins(slots: seq<Slot>, rules: Rules, after: Rules) {
    forall id | id in after && id !in rules ::
      after[id].id == id && exists i :: 0 <= i < |slots| && Asks(slots[i], after[id])
  }

  lemma {:induction false} AttemptOrigins(slots: seq<Slot>, now: int, rules: Rules, net: seq<Delivery>)
    ensures Origins(slots, rules, Attempt(slots, now, rules, net).rules)
  {
    if slots == [] {
    } else {
      var n := |slots| - 1;
      AttemptOrigins(slots[..n], now, rules, net);
      var before, after := Attempt(slots[..n], now, rules, net).rules, Attempt(slots, now, rules, net).rules;
      forall id | id in after && id !in rules
        ensures after[id].id == id && exists i :: 0 <= i < |slots| && Asks(slots[i], after[id])
      {
        if id in before && after[id] == before[id] {
          var i :| 0 <= i < n && Asks(slots[..n][i], before[id]);
          assert Asks(slots[i], after[id]);
        } else {
          assert Asks(slots[n], after[id]);
        }
      }
    }
  }

  lemma {:induction false} RetriedOrigins(slots: seq<Slot>, rules: Rules, tries: seq<Try>)
    ensures Origins(slots, rules, Retried(slots, rules, tries))
  {
    if tries == [] {
    } else {
      var n := |tries| - 1;
      var mid := Retried(slots, rules, tries[..n]);
      RetriedOrigins(slots, rules, tries[..n]);
      AttemptOrigins(slots, tries[n].now, mid, tries[n].net);
      AttemptFrame(slots, tries[n].now, mid, tries[n].net);
    }
  }

  /** Interruptions leave no trace in the rules either. */
  ghost predicate AlwaysTheSame(slots: seq<Slot>, rules: Rules) {
    forall tries, now | Succeeds(slots, rules, tries) ::
      SameRules(Retried(slots, rules, tries), Attempt(slots, now, rules, []).rules)
  }

  lemma DistinctIdsConverge(slots: seq<Slot>, rules: Rules, tries: seq<Try>, now: int)
    requires IdsDistinct(slots, rules) && Succeeds(slots, rules, tries)
    ensures SameRules(Retried(slots, rules, tries), Attempt(slots, now, rules, []).rules)
  {
    var a, b := Retried(slots, rules, tries), Attempt(slots, now, rules, []).rules;
    RetryingConverges(slots, rules, tries, Try(now, []));
    RetriedOrigins(slots, rules, tries);
    AttemptOrigins(slots, now, rules, []);
    AttemptFrame(slots, now, rules, []);
    forall id | id in a ensures SameButForTime(a[id], b[id]) {
      if id !in rules {
        var i :| 0 <= i < |slots| && Asks(slots[i], a[id]);
        var j :| 0 <= j < |slots| && Asks(slots[j], b[id]);
        assert i == j;
      }
    }
  }

  /** Undisturbed, a later host with the same id has overwritten an earlier one. */
  lemma {:induction false} LaterHostWins(slots: seq<Slot>, now: int, rules: Rules, j: nat)
    requires Ranked(slots) && j < |slots| && slots[j].Wanted? && slots[j].rule.id !in rules
    ensures var after := Attempt(slots, now, rules, []).rules;
            slots[j].rule.id in after && after[slots[j].rule.id].priority <= slots[j].rule.priority
  {
    var n := |slots| - 1;
    UndisturbedSucceeds(slots[..n], now, rules);
    if j < n {
      assert slots[..n][j] == slots[j];
      assert Ranked(slots[..n]);
      LaterHostWins(slots[..n], now, rules, j);
    }
  }

  /** The connection that loses the answer to host i, and only that. */
  function LosesAnswer(i: nat): seq<Delivery> {
    seq(i, _ => Done) + [AnswerLost]
  }

  lemma {:induction false} WorksUntil(slots: seq<Slot>, now: int, rules: Rules, i: nat)
    requires |slots| <= i
    ensures !Attempt(slots, now, rules, LosesAnswer(i)).failed
  {
    if slots == [] {
    } else {
      WorksUntil(slots[..|slots| - 1], now, rules, i);
      assert At(LosesAnswer(i), |slots| - 1) == Done;
    }
  }

  /** The first try stores host i's rule and stops there. */
  lemma StopsAt(slots: seq<Slot>, rules: Rules, i: nat)
    requires i < |slots| && slots[i].Wanted? && slots[i].rule.id !in rules
    ensures var p := Attempt(slots, 0, rules, LosesAnswer(i));
            p.failed && slots[i].rule.id in p.rules && p.rules[slots[i].rule.id].priority == slots[i].rule.priority
  {
    WorksUntil(slots[..i], 0, rules, i);
    assert At(LosesAnswer(i), i) == AnswerLost;
    AttemptSnoc(slots, 0, rules, LosesAnswer(i), i);
    FailedStays(slots, 0, rules, LosesAnswer(i), i + 1);
  }

  /** Two hosts share an id: if the answer for the first is lost, the second try skips both, and
      the first host's rule stays where the second's belongs. */
  lemma SharedIdDiverges(slots: seq<Slot>, rules: Rules, i: nat, j: nat)
    requires Ranked(slots) && i < j < |slots| && slots[i].Wanted? && slots[j].Wanted?
    requires slots[i].rule.id !in rules && slots[i].rule.id == slots[j].rule.id
    ensures var tries := [Try(0, LosesAnswer(i)), Try(0, [])];
            && Succeeds(slots, rules, tries)
            && !SameRules(Retried(slots, rules, tries), Attempt(slots, 0, rules, []).rules)
  {
    var first, second := Try(0, LosesAnswer(i)), Try(0, []);
    var mid := Attempt(slots, 0, rules, LosesAnswer(i)).rules;
    StopsAt(slots, rules, i);
    assert [first, second][..1] == [first] && [first][..0] == [];
    assert Retried(slots, rules, [first]) == mid;
    UndisturbedSucceeds(slots, 0, mid);
    AttemptFrame(slots, 0, mid, []);
    LaterHostWins(slots, 0, rules, j);
  }

  /** Being interrupted changes nothing exactly when no two new hosts share an id. */
  lemma ConvergesIffIdsDistinct(slots: seq<Slot>, rules: Rules)
    requires Ranked(slots)
    ensures AlwaysTheSame(slots, rules) <==> IdsDistinct(slots, rules)
  {
    if IdsDistinct(slots, rules) {
      forall tries, now | Succeeds(slots, rules, tries)
        ensures SameRules(Retried(slots, rules, tries), Attempt(slots, now, rules, []).rules)
      {
        DistinctIdsConverge(slots, rules, tries, now);
      }
    } else {
      var i, j :| 0 <= i < j < |slots| && slots[i].Wanted? && slots[j].Wanted? && slots[i].rule.id !in rules
                  && slots[i].rule.id == slots[j].rule.id;
      SharedIdDiverges(slots, rules, i, j);
    }
  }

  /** No two of the template's hosts that are still to be created agree up to case, dot and dash,
      star and x. */
  ghost predicate HostsDistinguishable(tpl: Template, workspace: string, lower: Lowering, rules: Rules) {
    var slots := Plan(tpl, workspace, lower);
    forall i, j | 0 <= i < j < |slots| && slots[i].Wanted? && slots[j].Wanted? && slots[i].rule.id !in rules ::
      !AllConfusable(lower, slots[i].rule.hostPattern, slots[j].rule.hostPattern)
  }

  lemma SlotsShareIdIff(tpl: Template, workspace: string, lower: Lowering, i: nat, j: nat)
    requires i < |tpl.hosts| && j < |tpl.hosts|
    requires SlotFor(tpl, workspace, lower, i).Wanted? && SlotFor(tpl, workspace, lower, j).Wanted?
    ensures var a, b := SlotFor(tpl, workspace, lower, i).rule, SlotFor(tpl, workspace, lower, j).rule;
            a.id == b.id <==> AllConfusable(lower, a.hostPattern, b.hostPattern)
  {
    SameIdIffConfusable(lower, tpl.name, TrimSpace(tpl.hosts[i]), TrimSpace(tpl.hosts[j]));
  }

  /** For a template: interruptions leave no trace exactly when its hosts can be told apart. */
  lemma TemplateConvergesIff(tpl: Template, workspace: string, lower: Lowering, rules: Rules)
    ensures AlwaysTheSame(Plan(tpl, workspace, lower), rules) <==> HostsDistinguishable(tpl, workspace, lower, rules)
  {
    var slots := Plan(tpl, workspace, lower);
    PlanIsRanked(tpl, workspace, lower);
    ConvergesIffIdsDistinct(slots, rules);
    forall i, j | 0 <= i < j < |slots| && slots[i].Wanted? && slots[j].Wanted?
      ensures slots[i].rule.id == slots[j].rule.id
         <==> AllConfusable(lower, slots[i].rule.hostPattern, slots[j].rule.hostPattern)
    {
      SlotsShareIdIff(tpl, workspace, lower, i, j);
    }
  }

  // The built-in templates

  const GITHUB_HOSTS: seq<string> := [
    "github.com", "api.github.com", "ghcr.io", "codeload.github.com", "objects.githubusercontent.com"]

  const REGISTRY_HOSTS: seq<string> := ["pypi.org", "files.pythonhosted.org", "registry.npmjs.org"]

  datatype Builtin = WideOpen | Packages | GithubOnly

  /** The case of Lookup's switch for a name already trimmed and lowered: unknown names get the
      default. */
  function BuiltinOf(name: string): Builtin {
    if name == "wide-open" then WideOpen else if name == "pypi+npm" then Packages else GithubOnly
  }

  function NameOf(which: Builtin): string {
    match which
    case WideOpen => "wide-open"
    case Packages => "pypi+npm"
    case GithubOnly => "github-only"
  }

  function HostsOf(which: Builtin): seq<string> {
    match which
    case WideOpen => []
    case Packages => GITHUB_HOSTS + REGISTRY_HOSTS
    case GithubOnly => GITHUB_HOSTS
  }

  /** BuiltinTemplates.Lookup. */
  function Lookup(name: string): Template {
    Template(NameOf(BuiltinOf(name)), HostsOf(BuiltinOf(name)))
  }

  /** A host that trimming leaves alone. */
  predicate Trimmed(host: string) {
    host != "" && !IsSpace(host[0]) && !IsSpace(host[|host| - 1])
  }

  /** No two hosts are equally long, so none can be taken for another. */
  ghost predicate LengthsDiffer(hosts: seq<string>) {
    && (forall i | 0 <= i < |hosts| :: Trimmed(hosts[i]))
    && forall i, j | 0 <= i < j < |hosts| :: |hosts[i]| != |hosts[j]|
  }

  lemma GithubHosts()
    ensures LengthsDiffer(GITHUB_HOSTS) && forall h | h in GITHUB_HOSTS :: |h| in {10, 14, 7, 19, 29}
  {
    var hosts := GITHUB_HOSTS;
    assert |hosts[0]| == 10 && |hosts[1]| == 14 && |hosts[2]| == 7 && |hosts[3]| == 19 && |hosts[4]| == 29;
    forall i | 0 <= i < |hosts| ensures Trimmed(hosts[i]) {
      GithubTrimmed(hosts, i);
    }
  }

  lemma GithubTrimmed(hosts: seq<string>, i: nat)
    requires hosts == GITHUB_HOSTS && i < |hosts|
    ensures Trimmed(hosts[i])
  {
    var first, last := hosts[i][0], hosts[i][|hosts[i]| - 1];
    assert 'a' <= first <= 'z' && 'a' <= last <= 'z';
  }

  lemma RegistryHosts()
    ensures LengthsDiffer(REGISTRY_HOSTS) && forall h | h in REGISTRY_HOSTS :: |h| in {8, 22, 18}
  {
    var hosts := REGISTRY_HOSTS;
    assert |hosts[0]| == 8 && |hosts[1]| == 22 && |hosts[2]| == 18;
    forall i | 0 <= i < |hosts| ensures Trimmed(hosts[i]) {
      var first, last := hosts[i][0], hosts[i][|hosts[i]| - 1];
      assert 'a' <= first <= 'z' && 'a' <= last <= 'z';
    }
  }

  lemma ListsJoined(a: seq<string>, b: seq<string>)
    requires LengthsDiffer(a) && LengthsDiffer(b) && forall g, h | g in a && h in b :: |g| != |h|
    ensures LengthsDiffer(a + b)
  {
    forall i, j | 0 <= i < j < |a + b| ensures |(a + b)[i]| != |(a + b)[j]| {
      if i < |a| <= j {
        assert a[i] in a && b[j - |a|] in b;
      }
    }
  }

  lemma BothLists(a: seq<string>, b: seq<string>)
    requires a == GITHUB_HOSTS && b == REGISTRY_HOSTS
    ensures LengthsDiffer(a + b)
  {
    GithubHosts();
    RegistryHosts();
    forall g, h | g in a && h in b ensures |g| != |h| {
      assert |g| in {10, 14, 7, 19, 29} && |h| in {8, 22, 18};
    }
    ListsJoined(a, b);
  }

  /** No two hosts of a built-in template are equally long, and none needs trimming. */
  lemma BuiltinLengthsDiffer(which: Builtin)
    ensures LengthsDiffer(HostsOf(which))
  {
    match which
    case WideOpen =>
    case Packages => BothLists(GITHUB_HOSTS, REGISTRY_HOSTS);
    case GithubOnly => GithubHosts();
  }

  lemma LengthsDifferIsEnough(tpl: Template, workspace: string, lower: Lowering, rules: Rules)
    requires LengthsDiffer(tpl.hosts)
    ensures HostsDistinguishable(tpl, workspace, lower, rules)
  {
    var slots := Plan(tpl, workspace, lower);
    forall i | 0 <= i < |slots| && slots[i].Wanted? ensures slots[i].rule.hostPattern == tpl.hosts[i] {
      assert slots[i] == SlotFor(tpl, workspace, lower, i);
      TrimKeeps(tpl.hosts[i], IsSpace);
    }
  }

  /** With the templates there are, interruptions never leave a trace: whatever was there before,
      and however often an apply fails, the rules end up those of an uninterrupted one. */
  lemma BuiltinsConverge(name: string, workspace: string, lower: Lowering, rules: Rules)
    ensures AlwaysTheSame(Plan(Lookup(name), workspace, lower), rules)
  {
    BuiltinLengthsDiffer(BuiltinOf(name));
    LengthsDifferIsEnough(Lookup(name), workspace, lower, rules);
    TemplateConvergesIff(Lookup(name), workspace, lower, rules);
  }

  // In plain terms

  /** An id, letter by letter: the host lowered, with dashes for dots and an x for a star. */
  lemma IdMeans(lower: Lowering, tplName: string, host: string)
    ensures var id := TemplateRuleId(lower, tplName, host); var head := "tpl-" + tplName + "-";
            && head <= id && |id| == |head| + |host|
            && forall k | 0 <= k < |host| ::
                 var c := lower(host[k]); id[|head| + k] == if c == '.' then '-' else if c == '*' then 'x' else c
  {
    var head := "tpl-" + tplName + "-";
    Suffix(head, ReplaceAll(ReplaceAll(Lowered(lower, host), '.', '-'), '*', 'x'));
  }

  lemma Suffix(head: string, tail: string)
    ensures head <= head + tail && forall k | 0 <= k < |tail| :: (head + tail)[|head| + k] == tail[k]
  {
  }

  /** What a host asks for: nothing when blank, and otherwise one rule that lets the workspace reach it
      over TCP on port 443, ranked by its place, and marked with the template's name. */
  lemma SlotMeans(tpl: Template, workspace: string, lower: Lowering, i: nat)
    requires i < |tpl.hosts|
    ensures var host := TrimSpace(tpl.hosts[i]); var slot := SlotFor(tpl, workspace, lower, i);
            && |Plan(tpl, workspace, lower)| == |tpl.hosts| && Plan(tpl, workspace, lower)[i] == slot
            && (slot.Blank? <==> host == "")
            && (slot.Wanted? ==>
                  && slot.rule.id == TemplateRuleId(lower, tpl.name, host) && slot.rule.hostPattern == host
                  && slot.rule.workspaceId == workspace && slot.rule.action == "allow" && slot.rule.proto == "tcp"
                  && slot.rule.portStart == 443 == slot.rule.portEnd && slot.rule.priority == 1000 - i
                  && slot.rule.createdBy == "egress-template:" + tpl.name)
  {
  }

  /** One host: a blank one is passed over, a listed id is counted as skipped, and any other is sent.
      A call that works stores the rule with the time of the attempt and counts; one that does not
      ends the attempt, and leaves the rule there or not. */
  lemma StepLaw(slots: seq<Slot>, slot: Slot, now: int, rules: Rules, net: seq<Delivery>)
    ensures Attempt([], now, rules, net) == Progress(rules, 0, 0, false)
    ensures var p := Attempt(slots, now, rules, net); var next := Attempt(slots + [slot], now, rules, net);
            var d := if |slots| < |net| then net[|slots|] else Done;
            && (p.failed || slot.Blank? ==> next == p)
            && (!p.failed && slot.Wanted? && slot.rule.id in rules ==> next == p.(skipped := p.skipped + 1))
            && (!p.failed && slot.Wanted? && slot.rule.id !in rules ==>
                  var stored := p.rules[slot.rule.id := slot.rule.(createdAt := now)];
                  next == match d
                          case Done => p.(rules := stored, created := p.created + 1)
                          case Refused => p.(failed := true)
                          case AnswerLost => p.(rules := stored, failed := true))
  {
    assert (slots + [slot])[..|slots|] == slots;
  }

  /** The built-in templates. */
  lemma BuiltinsAre(name: string)
    ensures name == "wide-open" ==> Lookup(name) == Template("wide-open", [])
    ensures name == "pypi+npm" ==> Lookup(name) == Template("pypi+npm", GITHUB_HOSTS + REGISTRY_HOSTS)
    ensures name != "wide-open" && name != "pypi+npm" ==> Lookup(name) == Template("github-only", GITHUB_HOSTS)
  {
  }
}
