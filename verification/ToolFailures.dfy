/**
 * The custom tool failure tracker (backend/src/agent/tool-failures.ts): which tools are failing
 * after a sequence of tool results, with what detail, and in what order.
 */
module ToolFailures {
  import opened Options
  import opened OrderedMap
  import Sequences
  import opened JsString

  const FALLBACK_FAILURE_DETAIL := "Tool returned ok: false"
  const EXECUTE_CODE_TOOL := "execute_code"

  /** The `ok` field: strictly true, strictly false, or anything else. */
  datatype Flag = IsTrue | IsFalse | Other

  /** `output` is `None` when it is not an object; `toolKey` when it is not a string. */
  datatype NestedResult = NotAnObject | Nested(toolKey: Option<string>, output: Option<Verdict>)

  /** The two fields of an output that decide; `error` is `None` when it is not a string. */
  datatype Verdict = Verdict(ok: Flag, error: Option<string>)

  /** `toolResults` is empty when it is not an array. */
  datatype Output = Output(verdict: Verdict, toolResults: seq<NestedResult>)

  datatype ToolResult = ToolResult(toolName: string, output: Option<Output>)

  type Failures = seq<Entry<string>>

  function Detail(v: Verdict): string {
    if v.error.Some? && Trim(v.error.value) != "" then Trim(v.error.value) else FALLBACK_FAILURE_DETAIL
  }

  // ---------------------------------------------------------------------------
  // Results as a flat list of decisive events
  // ---------------------------------------------------------------------------

  /** `detail` is absent when the tool succeeded. */
  datatype Event = Event(key: string, detail: Option<string>)

  function Decide(key: string, v: Verdict): seq<Event> {
    match v.ok
    case IsTrue => [Event(key, None)]
    case IsFalse => [Event(key, Some(Detail(v)))]
    case Other => []
  }

  function NestedOne(allowed: set<string>, item: NestedResult): seq<Event> {
    match item
    case NotAnObject => []
    case Nested(toolKey, output) =>
      var key := if toolKey.Some? then Trim(toolKey.value) else "";
      if key == "" || key !in allowed || output.None? then [] else Decide(key, output.value)
  }

  function NestedEvents(allowed: set<string>, nested: seq<NestedResult>): seq<Event> {
    if nested == [] then [] else NestedOne(allowed, nested[0]) + NestedEvents(allowed, nested[1..])
  }

  /** Nested results come before their outer `execute_code` result. */
  function EventsOf(allowed: set<string>, r: ToolResult): seq<Event> {
    if r.output.None? then []
    else if r.toolName == EXECUTE_CODE_TOOL then
      NestedEvents(allowed, r.output.value.toolResults) + Decide(EXECUTE_CODE_TOOL, r.output.value.verdict)
    else if r.toolName !in allowed then []
    else Decide(r.toolName, r.output.value.verdict)
  }

  function AllEvents(allowed: set<string>, results: seq<ToolResult>): seq<Event> {
    if results == [] then [] else EventsOf(allowed, results[0]) + AllEvents(allowed, results[1..])
  }

  function Apply(m: Failures, e: Event): Failures {
    if e.detail.Some? then Put(m, e.key, e.detail.value) else Remove(m, e.key)
  }

  function ApplyAll(m: Failures, events: seq<Event>): Failures
    decreases |events|
  {
    if events == [] then m else ApplyAll(Apply(m, events[0]), events[1..])
  }

  lemma {:induction false} ApplyAllAppend(m: Failures, a: seq<Event>, b: seq<Event>)
    ensures ApplyAll(m, a + b) == ApplyAll(ApplyAll(m, a), b)
    decreases |a|
  {
    if a == [] {
      assert a + b == b;
    } else {
      assert (a + b)[1..] == a[1..] + b;
      ApplyAllAppend(Apply(m, a[0]), a[1..], b);
    }
  }

  lemma {:induction false} AllEventsAppend(allowed: set<string>, a: seq<ToolResult>, b: seq<ToolResult>)
    ensures AllEvents(allowed, a + b) == AllEvents(allowed, a) + AllEvents(allowed, b)
  {
    if a == [] {
      assert a + b == b;
    } else {
      assert (a + b)[1..] == a[1..] + b;
      AllEventsAppend(allowed, a[1..], b);
    }
  }

  /** What the tracker holds after observing these results from the state `m`. */
  function Observe(allowed: set<string>, m: Failures, results: seq<ToolResult>): Failures {
    ApplyAll(m, AllEvents(allowed, results))
  }

  /** Observing two batches equals observing their concatenation. */
  lemma BatchesConcatenate(allowed: set<string>, m: Failures, a: seq<ToolResult>, b: seq<ToolResult>)
    ensures Observe(allowed, Observe(allowed, m, a), b) == Observe(allowed, m, a + b)
  {
    AllEventsAppend(allowed, a, b);
    ApplyAllAppend(m, AllEvents(allowed, a), AllEvents(allowed, b));
  }

  // ---------------------------------------------------------------------------
  // Last verdicts and streaks
  // ---------------------------------------------------------------------------

  /** The last event of a key decides: its detail when it failed, nothing otherwise. */
  function LastVerdict(events: seq<Event>, k: string): Option<string> {
    if events == [] then None
    else
      var last := events[|events| - 1];
      if last.key == k then last.detail else LastVerdict(events[..|events| - 1], k)
  }

  /** The current unbroken failing streak of `k` began at event `s`. */
  ghost predicate StreakFrom(events: seq<Event>, k: string, s: nat) {
    && s < |events| && events[s].key == k && events[s].detail.Some?
    && (forall j | s < j < |events| && events[j].key == k :: events[j].detail.Some?)
    && (forall i | 0 <= i < s && events[i].key == k && events[i].detail.Some? ::
          exists j | i < j < s :: events[j] == Event(k, None))
  }

  /** Keys in the order of the starts of their streaks. */
  ghost predicate InStreakOrder(m: Failures, events: seq<Event>, starts: seq<nat>) {
    && |starts| == |m|
    && (forall i | 0 <= i < |m| :: StreakFrom(events, m[i].key, starts[i]))
    && (forall i, j | 0 <= i < j < |m| :: starts[i] < starts[j])
  }

  lemma ApplyAllLast(events: seq<Event>)
    requires events != []
    ensures ApplyAll([], events)
            == Apply(ApplyAll([], events[..|events| - 1]), events[|events| - 1])
  {
    var before, last := events[..|events| - 1], events[|events| - 1];
    assert events == before + [last];
    ApplyAllAppend([], before, [last]);
    assert [last][1..] == [];
  }

  lemma {:induction false} FailingIsLastVerdict(events: seq<Event>, k: string)
    ensures Distinct(ApplyAll([], events))
    ensures Get(ApplyAll([], events), k) == LastVerdict(events, k)
    decreases |events|
  {
    if events != [] {
      var before, last := events[..|events| - 1], events[|events| - 1];
      var m := ApplyAll([], before);
      FailingIsLastVerdict(before, k);
      ApplyAllLast(events);
      if last.detail.Some? {
        PutDistinct(m, last.key, last.detail.value);
        PutLaws(m, last.key, last.detail.value, k);
      } else {
        RemoveDistinct(m, last.key);
        RemoveLaws(m, last.key, k);
      }
    }
  }

  /** Events of other keys, and further failures, leave a streak where it began. */
  lemma StreakContinues(events: seq<Event>, e: Event, k: string, s: nat)
    requires StreakFrom(events, k, s) && e != Event(k, None)
    ensures StreakFrom(events + [e], k, s)
  {
    var all := events + [e];
    forall i | 0 <= i < s && all[i].key == k && all[i].detail.Some?
      ensures exists j | i < j < s :: all[j] == Event(k, None)
    {
      assert events[i] == all[i];
      var j :| i < j < s && events[j] == Event(k, None);
      assert all[j] == events[j];
    }
  }

  /** A failure of a key that was not failing begins a streak. */
  lemma {:induction false} StreakBegins(events: seq<Event>, e: Event)
    requires e.detail.Some? && LastVerdict(events, e.key).None?
    ensures StreakFrom(events + [e], e.key, |events|)
  {
    var all := events + [e];
    forall i | 0 <= i < |events| && all[i].key == e.key && all[i].detail.Some?
      ensures exists j | i < j < |events| :: all[j] == Event(e.key, None)
    {
      assert events[i] == all[i];
      var j := ClearedSince(events, e.key, i);
      assert all[j] == events[j];
    }
  }

  lemma {:induction false} ClearedSince(events: seq<Event>, k: string, i: nat) returns (j: nat)
    requires i < |events| && events[i].key == k && events[i].detail.Some? && LastVerdict(events, k).None?
    ensures i < j < |events| && events[j] == Event(k, None)
    decreases |events|
  {
    var n := |events| - 1;
    if events[n].key == k {
      j := n;
    } else {
      j := ClearedSince(events[..n], k, i);
    }
  }

  lemma {:induction false} PutKeys(m: Failures, k: string, v: string)
    requires Has(m, k)
    ensures |Put(m, k, v)| == |m| && forall i | 0 <= i < |m| :: Put(m, k, v)[i].key == m[i].key
  {
    if m[0].key != k {
      PutKeys(m[1..], k, v);
    }
  }

  lemma {:induction false} RemovePosition(m: Failures, k: string) returns (at: nat)
    requires Has(m, k) && Distinct(m)
    ensures at < |m| && m[at].key == k && Remove(m, k) == m[..at] + m[at + 1..]
    ensures forall i | 0 <= i < |m| && i != at :: m[i].key != k
  {
    if m[0].key == k {
      at := 0;
      forall i | 0 < i < |m| ensures m[i].key != k {
        EntryHas(m[1..], m[1..][i - 1]);
      }
    } else {
      var d := RemovePosition(m[1..], k);
      at := d + 1;
      forall i | 0 <= i < |m| && i != at ensures m[i].key != k {
        if i > 0 { assert m[i] == m[1..][i - 1]; }
      }
    }
  }

  /** One event: a further failure keeps the order, a new one goes last, a success takes its key out. */
  lemma OrderStep(m: Failures, events: seq<Event>, starts: seq<nat>, e: Event) returns (starts': seq<nat>)
    requires Distinct(m) && InStreakOrder(m, events, starts)
    requires Get(m, e.key) == LastVerdict(events, e.key)
    ensures InStreakOrder(Apply(m, e), events + [e], starts')
  {
    hide Get, Distinct, StreakFrom, LastVerdict;
    if e.detail.Some? && Has(m, e.key) {
      PutKeys(m, e.key, e.detail.value);
      starts' := starts;
      forall i | 0 <= i < |m| ensures StreakFrom(events + [e], m[i].key, starts[i]) {
        StreakContinues(events, e, m[i].key, starts[i]);
      }
    } else if e.detail.Some? {
      PutLaws(m, e.key, e.detail.value, e.key);
      StreakBegins(events, e);
      starts' := starts + [|events|];
      forall i | 0 <= i < |m| ensures StreakFrom(events + [e], m[i].key, starts[i]) && starts[i] < |events| {
        StreakContinues(events, e, m[i].key, starts[i]);
        StreakInRange(events, m[i].key, starts[i]);
      }
    } else if Has(m, e.key) {
      var at := RemovePosition(m, e.key);
      var m' := Remove(m, e.key);
      starts' := starts[..at] + starts[at + 1..];
      forall i | 0 <= i < |m'| ensures StreakFrom(events + [e], m'[i].key, starts'[i]) {
        var o := if i < at then i else i + 1;
        assert m'[i] == m[o] && starts'[i] == starts[o];
        StreakContinues(events, e, m[o].key, starts[o]);
      }
      forall i, j | 0 <= i < j < |m'| ensures starts'[i] < starts'[j] {
        assert starts'[i] == starts[if i < at then i else i + 1] && starts'[j] == starts[if j < at then j else j + 1];
      }
    } else {
      RemoveLaws(m, e.key, e.key);
      starts' := starts;
      forall i | 0 <= i < |m| ensures StreakFrom(events + [e], m[i].key, starts[i]) {
        EntryHas(m, m[i]);
        StreakContinues(events, e, m[i].key, starts[i]);
      }
    }
  }

  lemma StreakInRange(events: seq<Event>, k: string, s: nat)
    requires StreakFrom(events, k, s)
    ensures s < |events|
  {
  }

  lemma {:induction false} FailingInStreakOrder(events: seq<Event>) returns (starts: seq<nat>)
    ensures InStreakOrder(ApplyAll([], events), events, starts)
    decreases |events|
  {
    if events == [] {
      starts := [];
    } else {
      var before, last := events[..|events| - 1], events[|events| - 1];
      var starts0 := FailingInStreakOrder(before);
      FailingIsLastVerdict(before, last.key);
      ApplyAllLast(events);
      assert events == before + [last];
      starts := OrderStep(ApplyAll([], before), before, starts0, last);
    }
  }

  /**
   * After any observations, exactly the keys whose last decisive result failed are held, with
   * that result's detail, in the order in which their current unbroken streaks began.
   */
  lemma FailingExactly(allowed: set<string>, results: seq<ToolResult>)
    ensures var m := Observe(allowed, [], results); var events := AllEvents(allowed, results);
            && Distinct(m)
            && (forall k :: Get(m, k) == LastVerdict(events, k))
            && exists starts :: InStreakOrder(m, events, starts)
  {
    var events := AllEvents(allowed, results);
    FailingIsLastVerdict(events, "");
    forall k ensures Get(ApplyAll([], events), k) == LastVerdict(events, k) {
      FailingIsLastVerdict(events, k);
    }
    var starts := FailingInStreakOrder(events);
  }

  // ---------------------------------------------------------------------------
  // The same told over the results, place by place
  // ---------------------------------------------------------------------------

  /** Place `n` of result `r`: one of its nested results, or after them the result itself. */
  datatype Place = Place(r: nat, n: nat)

  predicate Before(p: Place, q: Place) {
    p.r < q.r || (p.r == q.r && p.n < q.n)
  }

  /** `detail` is the trimmed error of a failure, or the fallback when that is absent or blank. */
  ghost predicate IsDetail(v: Verdict, detail: string) {
    if v.error.None? || Trim(v.error.value) == "" then detail == "Tool returned ok: false"
    else detail == Trim(v.error.value)
  }

  /** A verdict with `ok` strictly true tells a success, and with `ok` strictly false a failure. */
  ghost predicate Tells(v: Verdict, e: Event) {
    if e.detail.None? then v.ok == IsTrue else v.ok == IsFalse && IsDetail(v, e.detail.value)
  }

  ghost predicate NestedTells(allowed: set<string>, item: NestedResult, e: Event) {
    && item.Nested? && item.toolKey.Some? && item.output.Some?
    && e.key == Trim(item.toolKey.value) && e.key != "" && e.key in allowed
    && Tells(item.output.value, e)
  }

  /** The nested results of an `execute_code` result come before its own verdict. */
  ghost predicate ResultTells(allowed: set<string>, r: ToolResult, n: nat, e: Event) {
    r.output.Some? &&
    var code, nested := r.toolName == "execute_code", r.output.value.toolResults;
    || (code && n < |nested| && NestedTells(allowed, nested[n], e))
    || (n == (if code then |nested| else 0) && e.key == r.toolName && (code || e.key in allowed)
        && Tells(r.output.value.verdict, e))
  }

  ghost predicate Told(allowed: set<string>, results: seq<ToolResult>, p: Place, e: Event) {
    p.r < |results| && ResultTells(allowed, results[p.r], p.n, e)
  }

  /** The last place that tells of `k`, if any does, decides; otherwise `k` is as it was. */
  ghost predicate Observed(allowed: set<string>, before: Failures, results: seq<ToolResult>, after: Failures) {
    && (forall p, e | Told(allowed, results, p, e) && LastOf(allowed, results, p, e.key) ::
          Get(after, e.key) == e.detail)
    && (forall k | !Mentioned(allowed, results, k) :: Get(after, k) == Get(before, k))
  }

  ghost predicate LastOf(allowed: set<string>, results: seq<ToolResult>, p: Place, k: string) {
    forall q, f | Told(allowed, results, q, f) && f.key == k :: q == p || Before(q, p)
  }

  ghost predicate Mentioned(allowed: set<string>, results: seq<ToolResult>, k: string) {
    exists p, e :: Told(allowed, results, p, e) && e.key == k
  }

  /** At `p` the failing streak of `k` begins that no success has ended. */
  ghost predicate StreakAt(allowed: set<string>, results: seq<ToolResult>, k: string, p: Place) {
    && (exists e | Told(allowed, results, p, e) :: e.key == k && e.detail.Some?)
    && (forall q, e | Told(allowed, results, q, e) && e.key == k && Before(p, q) :: e.detail.Some?)
    && (forall q, e | Told(allowed, results, q, e) && e.key == k && e.detail.Some? && Before(q, p) ::
          exists x :: Before(q, x) && Before(x, p) && Told(allowed, results, x, Event(k, None)))
  }

  ghost predicate InPlaceOrder(allowed: set<string>, results: seq<ToolResult>, m: Failures, starts: seq<Place>) {
    && |starts| == |m|
    && (forall i | 0 <= i < |m| :: StreakAt(allowed, results, m[i].key, starts[i]))
    && (forall i, j | 0 <= i < j < |m| :: Before(starts[i], starts[j]))
  }

  lemma DecideTells(key: string, v: Verdict)
    ensures |Decide(key, v)| <= 1 && forall e :: e in Decide(key, v) <==> e.key == key && Tells(v, e)
  {
  }

  ghost predicate Between(from: Place, p: Place, to: Place) {
    !Before(p, from) && Before(p, to)
  }

  ghost predicate Ordered(ps: seq<Place>) {
    forall i, j | 0 <= i < j < |ps| :: Before(ps[i], ps[j])
  }

  ghost predicate At(ps: seq<Place>, events: seq<Event>, p: Place, e: Event) {
    exists i | 0 <= i < |ps| && i < |events| :: ps[i] == p && events[i] == e
  }

  /** `events` is all that is told from place `from` to before `to`, in order, told at the places `ps`. */
  ghost predicate Lists(
    allowed: set<string>, results: seq<ToolResult>, from: Place, to: Place, ps: seq<Place>, events: seq<Event>)
  {
    && |ps| == |events| && Ordered(ps)
    && (forall i | 0 <= i < |ps| :: Between(from, ps[i], to) && Told(allowed, results, ps[i], events[i]))
    && (forall p, e | Told(allowed, results, p, e) && Between(from, p, to) :: At(ps, events, p, e))
  }

  lemma OrderedConcat(from: Place, mid: Place, to: Place, ps: seq<Place>, qs: seq<Place>)
    requires !Before(mid, from) && !Before(to, mid) && Ordered(ps) && Ordered(qs)
    requires (forall p <- ps :: Between(from, p, mid)) && forall q <- qs :: Between(mid, q, to)
    ensures Ordered(ps + qs) && forall p <- ps + qs :: Between(from, p, to)
  {
    var all := ps + qs;
    forall i, j | 0 <= i < j < |all| ensures Before(all[i], all[j]) {
      if i < |ps| <= j {
        assert ps[i] in ps && qs[j - |ps|] in qs;
      } else {
        assert all[j] == if j < |ps| then ps[j] else qs[j - |ps|];
      }
    }
  }

  lemma AtConcat(ps: seq<Place>, a: seq<Event>, qs: seq<Place>, b: seq<Event>, p: Place, e: Event)
    requires |ps| == |a| && |qs| == |b| && (At(ps, a, p, e) || At(qs, b, p, e))
    ensures At(ps + qs, a + b, p, e)
  {
    if At(ps, a, p, e) {
      var i :| 0 <= i < |ps| && i < |a| && ps[i] == p && a[i] == e;
      assert (ps + qs)[i] == p && (a + b)[i] == e;
    } else {
      var i :| 0 <= i < |qs| && i < |b| && qs[i] == p && b[i] == e;
      assert (ps + qs)[|ps| + i] == p && (a + b)[|ps| + i] == e;
    }
  }

  lemma ListsConcat(
    allowed: set<string>, results: seq<ToolResult>, from: Place, mid: Place, to: Place,
    ps: seq<Place>, a: seq<Event>, qs: seq<Place>, b: seq<Event>)
    requires !Before(mid, from) && !Before(to, mid)
    requires Lists(allowed, results, from, mid, ps, a) && Lists(allowed, results, mid, to, qs, b)
    ensures Lists(allowed, results, from, to, ps + qs, a + b)
  {
    hide Told, At, Ordered;
    var all, events := ps + qs, a + b;
    OrderedConcat(from, mid, to, ps, qs);
    forall i | 0 <= i < |all| ensures Between(from, all[i], to) && Told(allowed, results, all[i], events[i]) {
      assert all[i] in all;
      if i >= |ps| { assert all[i] == qs[i - |ps|] && events[i] == b[i - |ps|]; }
    }
    forall p, e | Told(allowed, results, p, e) && Between(from, p, to) ensures At(all, events, p, e) {
      assert Between(from, p, mid) || Between(mid, p, to);
      AtConcat(ps, a, qs, b, p, e);
    }
  }

  /** At most one event is told at a place, and nothing from there to `to`. */
  lemma ListsHere(allowed: set<string>, results: seq<ToolResult>, p: Place, to: Place, events: seq<Event>)
    returns (ps: seq<Place>)
    requires |events| <= 1 && Before(p, to) && forall e :: e in events <==> Told(allowed, results, p, e)
    requires forall q, e | Told(allowed, results, q, e) && Between(p, q, to) :: q == p
    ensures Lists(allowed, results, p, to, ps, events)
  {
    hide Told;
    ps := if events == [] then [] else [p];
    if events != [] { assert events[0] in events; }
    forall q, e | Told(allowed, results, q, e) && Between(p, q, to) ensures At(ps, events, q, e) {
      assert e in events;
      assert ps[0] == q && events[0] == e;
    }
  }

  lemma NestedOneTells(allowed: set<string>, item: NestedResult)
    ensures |NestedOne(allowed, item)| <= 1
    ensures forall e :: e in NestedOne(allowed, item) <==> NestedTells(allowed, item, e)
  {
    hide Tells, Decide;
    if item.Nested? && item.toolKey.Some? && item.output.Some? {
      DecideTells(Trim(item.toolKey.value), item.output.value);
    }
  }

  lemma {:induction false} NestedLists(allowed: set<string>, results: seq<ToolResult>, r: nat, lo: nat)
    returns (ps: seq<Place>)
    requires r < |results| && results[r].toolName == "execute_code" && results[r].output.Some?
    requires lo <= |results[r].output.value.toolResults|
    ensures var nested := results[r].output.value.toolResults;
            Lists(allowed, results, Place(r, lo), Place(r, |nested|), ps, NestedEvents(allowed, nested[lo..]))
    decreases |results[r].output.value.toolResults| - lo
  {
    hide NestedEvents, NestedTells, Tells, Lists;
    var nested := results[r].output.value.toolResults;
    if lo == |nested| {
      ps := ListsNothing(allowed, results, Place(r, lo));
      NoNested(allowed);
      assert nested[lo..] == [];
    } else {
      var rest := NestedLists(allowed, results, r, lo + 1);
      assert nested[lo..][1..] == nested[lo + 1..];
      NestedNext(allowed, nested[lo..]);
      NestedOneTells(allowed, nested[lo]);
      var here := ListsHere(allowed, results, Place(r, lo), Place(r, lo + 1), NestedOne(allowed, nested[lo]));
      ListsConcat(allowed, results, Place(r, lo), Place(r, lo + 1), Place(r, |nested|),
                  here, NestedOne(allowed, nested[lo]), rest, NestedEvents(allowed, nested[lo + 1..]));
      ps := here + rest;
    }
  }

  lemma NestedNext(allowed: set<string>, nested: seq<NestedResult>)
    requires nested != []
    ensures NestedEvents(allowed, nested) == NestedOne(allowed, nested[0]) + NestedEvents(allowed, nested[1..])
  {
  }

  lemma NoNested(allowed: set<string>)
    ensures NestedEvents(allowed, []) == []
  {
  }

  lemma ListsNothing(allowed: set<string>, results: seq<ToolResult>, p: Place) returns (ps: seq<Place>)
    ensures Lists(allowed, results, p, p, ps, [])
  {
    ps := [];
  }

  /** What the verdict of a result itself contributes. */
  function OuterOne(allowed: set<string>, r: ToolResult): seq<Event> {
    if r.output.None? || (r.toolName != EXECUTE_CODE_TOOL && r.toolName !in allowed) then []
    else Decide(r.toolName, r.output.value.verdict)
  }

  function Width(r: ToolResult): nat {
    if r.output.Some? && r.toolName == "execute_code" then |r.output.value.toolResults| else 0
  }

  lemma OuterTold(allowed: set<string>, results: seq<ToolResult>, r: nat)
    requires r < |results|
    ensures |OuterOne(allowed, results[r])| <= 1
    ensures forall e :: e in OuterOne(allowed, results[r]) <==> Told(allowed, results, Place(r, Width(results[r])), e)
    ensures forall q, e | Told(allowed, results, q, e) && q.r == r :: q.n <= Width(results[r])
  {
    hide NestedTells, Tells;
    if results[r].output.Some? {
      DecideTells(results[r].toolName, results[r].output.value.verdict);
    }
  }

  lemma ResultLists(allowed: set<string>, results: seq<ToolResult>, r: nat) returns (ps: seq<Place>)
    requires r < |results|
    ensures Lists(allowed, results, Place(r, 0), Place(r + 1, 0), ps, EventsOf(allowed, results[r]))
  {
    hide NestedEvents, Lists, Decide, Told;
    var w := Width(results[r]);
    OuterTold(allowed, results, r);
    var outer := ListsHere(allowed, results, Place(r, w), Place(r + 1, 0), OuterOne(allowed, results[r]));
    if results[r].output.Some? && results[r].toolName == "execute_code" {
      var nested := results[r].output.value.toolResults;
      var inner := NestedLists(allowed, results, r, 0);
      assert nested[0..] == nested;
      ListsConcat(allowed, results, Place(r, 0), Place(r, w), Place(r + 1, 0),
                  inner, NestedEvents(allowed, nested), outer, OuterOne(allowed, results[r]));
      ps := inner + outer;
    } else {
      ps := outer;
    }
  }

  lemma {:induction false} AllLists(allowed: set<string>, results: seq<ToolResult>, r: nat) returns (ps: seq<Place>)
    requires r <= |results|
    ensures Lists(allowed, results, Place(r, 0), Place(|results|, 0), ps, AllEvents(allowed, results[r..]))
    decreases |results| - r
  {
    hide Lists, EventsOf;
    if r == |results| {
      ps := ListsNothing(allowed, results, Place(r, 0));
    } else {
      var here := ResultLists(allowed, results, r);
      var rest := AllLists(allowed, results, r + 1);
      assert results[r..][1..] == results[r + 1..];
      ListsConcat(allowed, results, Place(r, 0), Place(r + 1, 0), Place(|results|, 0),
                  here, EventsOf(allowed, results[r]), rest, AllEvents(allowed, results[r + 1..]));
      ps := here + rest;
    }
  }

  /** The events are all that is told, in order. */
  lemma EventsAreTold(allowed: set<string>, results: seq<ToolResult>) returns (ps: seq<Place>)
    ensures var events := AllEvents(allowed, results);
            && |ps| == |events| && Ordered(ps)
            && (forall i | 0 <= i < |ps| :: Told(allowed, results, ps[i], events[i]))
            && (forall p, e | Told(allowed, results, p, e) :: At(ps, events, p, e))
  {
    hide Told, AllEvents;
    ps := AllLists(allowed, results, 0);
    assert results[0..] == results;
    forall p, e | Told(allowed, results, p, e) ensures Between(Place(0, 0), p, Place(|results|, 0)) {
      ToldInRange(allowed, results, p, e);
    }
  }

  lemma ToldInRange(allowed: set<string>, results: seq<ToolResult>, p: Place, e: Event)
    requires Told(allowed, results, p, e)
    ensures p.r < |results|
  {
  }

  lemma {:induction false} ApplyAllLaws(before: Failures, events: seq<Event>, k: string)
    requires Distinct(before)
    ensures Distinct(ApplyAll(before, events))
    ensures forall i | 0 <= i < |events| && events[i].key == k && (forall j | i < j < |events| :: events[j].key != k) ::
              Get(ApplyAll(before, events), k) == events[i].detail
    ensures (forall i | 0 <= i < |events| :: events[i].key != k) ==> Get(ApplyAll(before, events), k) == Get(before, k)
    decreases |events|
  {
    hide Distinct, Get, Put, Remove;
    if events != [] {
      var e := events[0];
      if e.detail.Some? {
        PutDistinct(before, e.key, e.detail.value);
        PutLaws(before, e.key, e.detail.value, k);
      } else {
        RemoveDistinct(before, e.key);
        RemoveLaws(before, e.key, k);
      }
      ApplyAllLaws(Apply(before, e), events[1..], k);
    }
  }

  /**
   * After any observations, over the results: a key that one of them tells of is held exactly when
   * the last to do so is a failure, with its detail; every other key is as it was.
   */
  lemma ObservedExactly(allowed: set<string>, before: Failures, results: seq<ToolResult>)
    requires Distinct(before)
    ensures Observed(allowed, before, results, Observe(allowed, before, results))
  {
    hide Told, Get, ApplyAll, AllEvents, Distinct;
    var events := AllEvents(allowed, results);
    var ps := EventsAreTold(allowed, results);
    var after := Observe(allowed, before, results);
    forall p, e | Told(allowed, results, p, e) && LastOf(allowed, results, p, e.key) ensures Get(after, e.key) == e.detail {
      var i :| 0 <= i < |ps| && ps[i] == p && events[i] == e;
      ApplyAllLaws(before, events, e.key);
    }
    forall k | !Mentioned(allowed, results, k) ensures Get(after, k) == Get(before, k) {
      ApplyAllLaws(before, events, k);
    }
  }

  lemma StreakPlace(allowed: set<string>, results: seq<ToolResult>, ps: seq<Place>, k: string, s: nat)
    requires var events := AllEvents(allowed, results);
             && |ps| == |events| && Ordered(ps)
             && (forall i | 0 <= i < |ps| :: Told(allowed, results, ps[i], events[i]))
             && (forall p, e | Told(allowed, results, p, e) :: At(ps, events, p, e))
    requires StreakFrom(AllEvents(allowed, results), k, s)
    ensures StreakAt(allowed, results, k, ps[s])
  {
    hide Told, AllEvents;
    var events := AllEvents(allowed, results);
    forall q, e | Told(allowed, results, q, e) && e.key == k && Before(ps[s], q) ensures e.detail.Some? {
      var i :| 0 <= i < |ps| && ps[i] == q && events[i] == e;
    }
    forall q, e | Told(allowed, results, q, e) && e.key == k && e.detail.Some? && Before(q, ps[s])
      ensures exists x :: Before(q, x) && Before(x, ps[s]) && Told(allowed, results, x, Event(k, None))
    {
      var i :| 0 <= i < |ps| && ps[i] == q && events[i] == e;
      var j :| i < j < s && events[j] == Event(k, None);
      assert Told(allowed, results, ps[j], events[j]);
    }
  }

  /** From nothing failing on, the failing keys stand in the order of the places where their streaks begin. */
  lemma ObservedInOrder(allowed: set<string>, results: seq<ToolResult>)
    ensures exists starts :: InPlaceOrder(allowed, results, Observe(allowed, [], results), starts)
  {
    hide Told, AllEvents, ApplyAll, StreakFrom, StreakAt;
    var events := AllEvents(allowed, results);
    var ps := EventsAreTold(allowed, results);
    var at := FailingInStreakOrder(events);
    var m := Observe(allowed, [], results);
    forall i | 0 <= i < |m| ensures at[i] < |ps| {
      StreakInRange(events, m[i].key, at[i]);
    }
    var starts := seq(|m|, i requires 0 <= i < |m| => ps[at[i]]);
    forall i | 0 <= i < |m| ensures StreakAt(allowed, results, m[i].key, starts[i]) {
      StreakPlace(allowed, results, ps, m[i].key, at[i]);
    }
    assert InPlaceOrder(allowed, results, m, starts);
  }

  // ---------------------------------------------------------------------------
  // The tracker
  // ---------------------------------------------------------------------------

  function Line(e: Entry<string>): string {
    e.key + ": " + e.value
  }

  /** One line per entry, in the order of the map. */
  function Lines(m: Failures): (lines: seq<string>)
    ensures |lines| == |m| && forall i | 0 <= i < |m| :: lines[i] == Line(m[i])
  {
    if m == [] then [] else [Line(m[0])] + Lines(m[1..])
  }

  function Join(lines: seq<string>): string {
    if lines == [] then ""
    else if |lines| == 1 then lines[0]
    else lines[0] + "; " + Join(lines[1..])
  }

  lemma {:induction false} JoinSplit(a: seq<string>, b: seq<string>)
    requires a != [] && b != []
    ensures Join(a + b) == Join(a) + "; " + Join(b)
  {
    if |a| == 1 {
      assert (a + b)[1..] == b;
    } else {
      assert (a + b)[1..] == a[1..] + b;
      JoinSplit(a[1..], b);
      Sequences.Assoc(a[0] + "; ", Join(a[1..]), "; " + Join(b));
      Sequences.Assoc(Join(a[1..]), "; ", Join(b));
    }
  }

  lemma JoinOne(line: string)
    ensures Join([line]) == line
  {
  }

  /** The text of some lines when others follow, and when others precede. */
  function Lead(lines: seq<string>): string {
    if lines == [] then "" else Join(lines) + "; "
  }

  function Trail(lines: seq<string>): string {
    if lines == [] then "" else "; " + Join(lines)
  }

  lemma JoinHere(line: string, after: seq<string>)
    ensures Join([line] + after) == line + Trail(after)
  {
    JoinOne(line);
    if after == [] {
      assert [line] + after == [line];
    } else {
      JoinSplit([line], after);
      Sequences.Assoc(line, "; ", Join(after));
    }
  }

  lemma JoinAt(before: seq<string>, rest: seq<string>)
    requires rest != []
    ensures Join(before + rest) == Lead(before) + Join(rest)
  {
    hide Join;
    if before == [] {
      assert before + rest == rest && "" + Join(rest) == Join(rest);
    } else {
      JoinSplit(before, rest);
    }
  }

  /** In the summary, the line of entry `i` stands between the lines before it and those after it. */
  lemma LineStands(m: Failures, i: nat)
    requires i < |m|
    ensures Join(Lines(m)) == Lead(Lines(m)[..i]) + (m[i].key + ": " + m[i].value + Trail(Lines(m)[i + 1..]))
  {
    JoinAround(Lines(m), i);
  }

  lemma JoinAround(lines: seq<string>, i: nat)
    requires i < |lines|
    ensures Join(lines) == Lead(lines[..i]) + (lines[i] + Trail(lines[i + 1..]))
  {
    hide Join, Lead, Trail;
    var here := [lines[i]] + lines[i + 1..];
    Sequences.SplitAt(lines, i);
    JoinHere(lines[i], lines[i + 1..]);
    JoinAt(lines[..i], here);
  }

  class CustomToolFailureTracker {
    const allowed: set<string>
    var failures: Failures

    constructor (customToolKeys: set<string>)
      ensures Valid() && allowed == customToolKeys && failures == []
    {
      allowed := customToolKeys;
      failures := [];
    }

    /** One entry per key, as in the source's map. */
    ghost predicate Valid()
      reads this
    {
      Distinct(failures)
    }

    /** The source's two branches on `ok`. */
    method Note(key: string, v: Verdict)
      modifies this
      ensures failures == ApplyAll(old(failures), Decide(key, v))
      ensures v.ok == IsTrue ==> failures == Remove(old(failures), key)
      ensures v.ok == IsFalse ==> exists detail | IsDetail(v, detail) :: failures == Put(old(failures), key, detail)
      ensures v.ok == Other ==> failures == old(failures)
    {
      if v.ok == IsTrue {
        failures := Remove(failures, key);
        return;
      }
      if v.ok == IsFalse {
        var detail := FALLBACK_FAILURE_DETAIL;
        if v.error.Some? {
          var trimmed := Trim(v.error.value);
          if trimmed != "" { detail := trimmed; }
        }
        failures := Put(failures, key, detail);
      }
    }

    method ObserveOne(r: ToolResult)
      modifies this
      ensures failures == ApplyAll(old(failures), EventsOf(allowed, r))
    {
      if r.output.None? { return; }
      var record := r.output.value;
      if r.toolName == EXECUTE_CODE_TOOL {
        ObserveNested(record.toolResults);
        ApplyAllAppend(old(failures), NestedEvents(allowed, record.toolResults), Decide(EXECUTE_CODE_TOOL, record.verdict));
        Note(EXECUTE_CODE_TOOL, record.verdict);
        return;
      }
      if r.toolName !in allowed { return; }
      Note(r.toolName, record.verdict);
    }

    method ObserveNested(nested: seq<NestedResult>)
      modifies this
      ensures failures == ApplyAll(old(failures), NestedEvents(allowed, nested))
    {
      for n := 0 to |nested|
        invariant ApplyAll(failures, NestedEvents(allowed, nested[n..]))
               == ApplyAll(old(failures), NestedEvents(allowed, nested))
      {
        var item := nested[n];
        var rest := nested[n + 1..];
        assert nested[n..][1..] == rest;
        if item.NotAnObject? {
          assert [] + NestedEvents(allowed, rest) == NestedEvents(allowed, rest);
          continue;
        }
        var key := if item.toolKey.Some? then Trim(item.toolKey.value) else "";
        if key == "" || key !in allowed || item.output.None? {
          assert [] + NestedEvents(allowed, rest) == NestedEvents(allowed, rest);
          continue;
        }
        ApplyAllAppend(failures, Decide(key, item.output.value), NestedEvents(allowed, rest));
        Note(key, item.output.value);
      }
    }

    method ObserveToolResults(results: seq<ToolResult>)
      requires Valid()
      modifies this
      ensures Valid() && failures == Observe(allowed, old(failures), results)
      ensures Observed(allowed, old(failures), results, failures)
      ensures old(failures) == [] ==> exists starts :: InPlaceOrder(allowed, results, failures, starts)
    {
      ObservedExactly(allowed, failures, results);
      ObservedInOrder(allowed, results);
      ApplyAllLaws(failures, AllEvents(allowed, results), "");
      hide Observed, InPlaceOrder, Distinct;
      for n := 0 to |results|
        invariant ApplyAll(failures, AllEvents(allowed, results[n..])) == Observe(allowed, old(failures), results)
      {
        assert results[n..][1..] == results[n + 1..];
        ApplyAllAppend(failures, EventsOf(allowed, results[n]), AllEvents(allowed, results[n + 1..]));
        ObserveOne(results[n]);
      }
    }

    /** The source's map over the entries, and its join of the lines. */
    method Summarize() returns (summary: Option<string>)
      ensures summary.None? <==> failures == []
      ensures summary.Some? ==> summary.value == Join(Lines(failures))
    {
      if failures == [] { return None; }
      var lines := [];
      for n := 0 to |failures|
        invariant |lines| == n && forall i | 0 <= i < n :: lines[i] == Line(failures[i])
      {
        lines := lines + [Line(failures[n])];
      }
      assert lines == Lines(failures);
      var text := lines[0];
      for n := 1 to |lines|
        invariant text == Join(lines[..n])
      {
        assert lines[..n + 1] == lines[..n] + [lines[n]];
        JoinSplit(lines[..n], [lines[n]]);
        text := text + "; " + lines[n];
      }
      assert lines[..|lines|] == lines;
      summary := Some(text);
    }
  }
}
