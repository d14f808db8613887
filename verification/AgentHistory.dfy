/**
 * The agent history sanitiser (backend/src/agent/messages.ts).
 *
 * Three passes turn a stored transcript into one a model provider accepts, specified by the
 * recursive functions `Dedup`, `Prune` and `Clean`. `HistoryPlaces` says place by place what they
 * keep; `HistorySanitizer` holds the source's loops, proved to compute them.
 */
module AgentHistory {
  import opened Options
  import Sequences

  datatype Role = System | User | Assistant | Tool

  /** The `type` tag of a part. `OtherType` stands for every tag the code never names. */
  datatype PartType = Text | Image | File | ToolCall | ToolResult | Reasoning | OtherType

  /** `toolCallId` is `None` when the field is missing or not a string. */
  datatype Part = Part(kind: PartType, toolCallId: Option<string>, body: string, providerOptions: Option<string>)

  /** `Plain` is any content that is not an array. */
  datatype Content = Plain(text: string) | Parts(parts: seq<Part>)

  datatype Message = Message(role: Role, content: Content)

  type History = seq<Message>

  // ---------------------------------------------------------------------------
  // Identifiers
  // ---------------------------------------------------------------------------

  /** What pass one de-duplicates on: a call or a result, with a non-empty string id. */
  datatype ToolKey = ToolKey(kind: PartType, id: string)

  function KeyOf(p: Part): Option<ToolKey> {
    if (p.kind == ToolCall || p.kind == ToolResult) && p.toolCallId.Some? && p.toolCallId.value != ""
    then Some(ToolKey(p.kind, p.toolCallId.value))
    else None
  }

  function PartKeys(ps: seq<Part>): set<ToolKey> {
    if ps == [] then {}
    else (if KeyOf(ps[0]).Some? then {KeyOf(ps[0]).value} else {}) + PartKeys(ps[1..])
  }

  function Keys(h: History): set<ToolKey> {
    if h == [] then {}
    else (if h[0].content.Parts? then PartKeys(h[0].content.parts) else {}) + Keys(h[1..])
  }

  /** All string ids, the empty one included, of the parts of one kind. */
  function IdsOf(ps: seq<Part>, kind: PartType): set<string> {
    if ps == [] then {}
    else
      (if ps[0].kind == kind && ps[0].toolCallId.Some? then {ps[0].toolCallId.value} else {})
      + IdsOf(ps[1..], kind)
  }

  function CallIds(m: Message): set<string> {
    if m.role == Assistant && m.content.Parts? then IdsOf(m.content.parts, ToolCall) else {}
  }

  function ResultIds(m: Message): set<string> {
    if m.role == Tool && m.content.Parts? then IdsOf(m.content.parts, ToolResult) else {}
  }

  predicate IsBoundary(m: Message) {
    m.role == User || m.role == System
  }

  // ---------------------------------------------------------------------------
  // The three passes
  // ---------------------------------------------------------------------------

  function FreshParts(ps: seq<Part>, seen: set<ToolKey>): seq<Part> {
    if ps == [] then []
    else if ps[0].kind == Reasoning then FreshParts(ps[1..], seen)
    else
      match KeyOf(ps[0])
      case None => [ps[0]] + FreshParts(ps[1..], seen)
      case Some(k) =>
        if k in seen then FreshParts(ps[1..], seen)
        else [ps[0]] + FreshParts(ps[1..], seen + {k})
  }

  /** Pass one: drop reasoning, later copies of a call or result, and messages left empty. */
  function Dedup(h: History, seen: set<ToolKey>): History {
    if h == [] then []
    else if h[0].content.Plain? then [h[0]] + Dedup(h[1..], seen)
    else
      var ps := FreshParts(h[0].content.parts, seen);
      var rest := Dedup(h[1..], seen + PartKeys(h[0].content.parts));
      if ps == [] then rest else [h[0].(content := Parts(ps))] + rest
  }

  /** The non-empty result ids found in tool messages before the next user/system message. */
  function WindowIds(ms: History): set<string> {
    if ms == [] || IsBoundary(ms[0]) then {}
    else (ResultIds(ms[0]) - {""}) + WindowIds(ms[1..])
  }

  /** Pass two: drop an assistant message with a call that its window does not resolve. */
  function Prune(ms: History): History {
    if ms == [] then []
    else if CallIds(ms[0]) <= WindowIds(ms[1..]) then [ms[0]] + Prune(ms[1..])
    else Prune(ms[1..])
  }

  function Surviving(ms: History): set<string> {
    if ms == [] then {} else CallIds(ms[0]) + Surviving(ms[1..])
  }

  function KnownParts(ps: seq<Part>, ids: set<string>): seq<Part> {
    if ps == [] then []
    else if ps[0].kind == ToolResult && ps[0].toolCallId.Some? && ps[0].toolCallId.value !in ids
    then KnownParts(ps[1..], ids)
    else [ps[0]] + KnownParts(ps[1..], ids)
  }

  /** Pass three: drop results, in tool messages, whose call is gone. */
  function Clean(ms: History, ids: set<string>): History {
    if ms == [] then []
    else if ms[0].role != Tool || ms[0].content.Plain? then [ms[0]] + Clean(ms[1..], ids)
    else
      var ps := KnownParts(ms[0].content.parts, ids);
      if ps == [] then Clean(ms[1..], ids)
      else [ms[0].(content := Parts(ps))] + Clean(ms[1..], ids)
  }

  function Sanitize(h: History): History {
    var pruned := Prune(Dedup(h, {}));
    Clean(pruned, Surviving(pruned))
  }

  predicate Replayable(p: Part) {
    p.kind == Text || p.kind == Image || p.kind == File || p.kind == ToolCall || p.kind == ToolResult
  }

  function StripParts(ps: seq<Part>): seq<Part> {
    if ps == [] then []
    else if Replayable(ps[0]) then [ps[0].(providerOptions := None)] + StripParts(ps[1..])
    else StripParts(ps[1..])
  }

  /** The last-resort scrub: only replayable parts, without provider options. */
  function Strip(h: History): History {
    if h == [] then []
    else if h[0].content.Plain? then [h[0]] + Strip(h[1..])
    else
      var ps := StripParts(h[0].content.parts);
      if ps == [] then Strip(h[1..]) else [h[0].(content := Parts(ps))] + Strip(h[1..])
  }

  // ---------------------------------------------------------------------------
  // What a provider accepts
  // ---------------------------------------------------------------------------

  function PartCount(ps: seq<Part>, k: ToolKey): nat {
    if ps == [] then 0 else (if KeyOf(ps[0]) == Some(k) then 1 else 0) + PartCount(ps[1..], k)
  }

  /** How many parts of the whole history, in messages of any role, carry this key. */
  function Count(h: History, k: ToolKey): nat {
    if h == [] then 0
    else (if h[0].content.Parts? then PartCount(h[0].content.parts, k) else 0) + Count(h[1..], k)
  }

  ghost predicate NoJunk(h: History) {
    forall m <- h | m.content.Parts? ::
      m.content.parts != [] && forall p <- m.content.parts :: p.kind != Reasoning
  }

  ghost predicate Unique(h: History) {
    forall k: ToolKey :: Count(h, k) <= 1
  }

  ghost predicate NoBoundary(h: History, lo: nat, hi: nat)
    requires lo <= hi <= |h|
  {
    forall n | lo <= n < hi :: !IsBoundary(h[n])
  }

  /** The assistant message `i` and the tool message `j` share a turn and the id `x`. */
  ghost predicate Paired(h: History, i: nat, j: nat, x: string) {
    && i < j < |h|
    && x != ""
    && x in CallIds(h[i])
    && x in ResultIds(h[j])
    && NoBoundary(h, i + 1, j)
  }

  /** Every call has a result later in its turn, and every result a call earlier in its turn. */
  ghost predicate PairedBothWays(h: History) {
    && (forall i, x | 0 <= i < |h| && x in CallIds(h[i]) :: exists j :: Paired(h, i, j, x))
    && (forall j, x | 0 <= j < |h| && x in ResultIds(h[j]) :: exists i :: Paired(h, i, j, x))
  }

  ghost predicate WellFormed(h: History) {
    NoJunk(h) && Unique(h) && PairedBothWays(h)
  }

  // ---------------------------------------------------------------------------
  // Pass one: counting and fixed points
  // ---------------------------------------------------------------------------

  lemma {:induction false} FreshPartsCount(ps: seq<Part>, seen: set<ToolKey>, k: ToolKey)
    ensures PartCount(FreshParts(ps, seen), k) == if k in PartKeys(ps) && k !in seen then 1 else 0
    ensures forall p <- FreshParts(ps, seen) :: p.kind != Reasoning && p in ps
  {
    if ps != [] {
      var seen' := if KeyOf(ps[0]).Some? then seen + {KeyOf(ps[0]).value} else seen;
      assert ps == [ps[0]] + ps[1..];
      FreshPartsCount(ps[1..], seen, k);
      FreshPartsCount(ps[1..], seen', k);
      assert k in PartKeys(ps) <==> KeyOf(ps[0]) == Some(k) || k in PartKeys(ps[1..]);
    }
  }

  /** Exactly one copy of every key not already seen survives, whatever the input. */
  lemma {:induction false} DedupCount(h: History, seen: set<ToolKey>, k: ToolKey)
    ensures Count(Dedup(h, seen), k) == if k in Keys(h) && k !in seen then 1 else 0
    ensures NoJunk(Dedup(h, seen))
  {
    if h != [] {
      if h[0].content.Plain? {
        DedupCount(h[1..], seen, k);
      } else {
        var ps := h[0].content.parts;
        FreshPartsCount(ps, seen, k);
        DedupCount(h[1..], seen + PartKeys(ps), k);
        assert NoJunk(Dedup(h, seen)) by {
          forall m <- Dedup(h, seen) | m.content.Parts?
            ensures m.content.parts != [] && forall p <- m.content.parts :: p.kind != Reasoning
          {
            if m !in Dedup(h[1..], seen + PartKeys(ps)) {
              assert m.content.parts == FreshParts(ps, seen);
            }
          }
        }
      }
    }
  }

  lemma {:induction false} FreshPartsFixed(ps: seq<Part>, seen: set<ToolKey>)
    requires forall p <- ps :: p.kind != Reasoning
    requires forall k: ToolKey :: PartCount(ps, k) <= if k in seen then 0 else 1
    ensures FreshParts(ps, seen) == ps
  {
    if ps != [] {
      assert ps == [ps[0]] + ps[1..];
      forall k: ToolKey
        ensures PartCount(ps[1..], k) <= if k in seen then 0 else 1
        ensures KeyOf(ps[0]) == Some(k) ==> k !in seen && PartCount(ps[1..], k) <= 0
      {
        assert PartCount(ps, k) <= if k in seen then 0 else 1;
      }
      FreshPartsFixed(ps[1..], if KeyOf(ps[0]).Some? then seen + {KeyOf(ps[0]).value} else seen);
    }
  }

  lemma {:induction false} PartCountPositive(ps: seq<Part>, k: ToolKey)
    ensures PartCount(ps, k) > 0 <==> k in PartKeys(ps)
  {
    if ps != [] {
      assert ps == [ps[0]] + ps[1..];
      PartCountPositive(ps[1..], k);
    }
  }

  lemma {:induction false} DedupFixed(h: History, seen: set<ToolKey>)
    requires NoJunk(h)
    requires forall k: ToolKey :: Count(h, k) <= if k in seen then 0 else 1
    ensures Dedup(h, seen) == h
  {
    if h == [] {
    } else if h[0].content.Plain? {
      assert forall k: ToolKey :: Count(h[1..], k) <= Count(h, k);
      DedupFixed(h[1..], seen);
    } else {
      var ps := h[0].content.parts;
      forall k: ToolKey
        ensures PartCount(ps, k) <= if k in seen then 0 else 1
        ensures Count(h[1..], k) <= if k in seen + PartKeys(ps) then 0 else 1
      {
        assert Count(h, k) <= if k in seen then 0 else 1;
        PartCountPositive(ps, k);
      }
      assert h[0] in h;
      FreshPartsFixed(ps, seen);
      DedupFixed(h[1..], seen + PartKeys(ps));
    }
  }

  /** Pass one changes nothing exactly when there is no junk and every key is unique. */
  lemma DedupFixedIff(h: History)
    ensures Dedup(h, {}) == h <==> NoJunk(h) && Unique(h)
  {
    forall k: ToolKey {
      DedupCount(h, {}, k);
    }
    if NoJunk(h) && Unique(h) {
      DedupFixed(h, {});
    } else if Dedup(h, {}) == h {
      DedupCount(h, {}, ToolKey(ToolCall, ""));
    }
  }

  // ---------------------------------------------------------------------------
  // Pass two: windows
  // ---------------------------------------------------------------------------

  lemma {:induction false} WindowWitness(ms: History, x: string) returns (j: nat)
    requires x in WindowIds(ms)
    ensures x != "" && j < |ms| && x in ResultIds(ms[j]) && NoBoundary(ms, 0, j)
  {
    if x in ResultIds(ms[0]) && x != "" {
      j := 0;
    } else {
      var d := WindowWitness(ms[1..], x);
      j := d + 1;
      forall n | 0 <= n < j ensures !IsBoundary(ms[n]) {
        if n > 0 { assert ms[n] == ms[1..][n - 1]; }
      }
    }
  }

  lemma {:induction false} WindowReaches(ms: History, x: string, j: nat)
    requires x != "" && j < |ms| && x in ResultIds(ms[j]) && NoBoundary(ms, 0, j)
    ensures x in WindowIds(ms)
  {
    if j > 0 {
      assert !IsBoundary(ms[0]);
      forall n | 0 <= n < j - 1 ensures !IsBoundary(ms[1..][n]) {
        assert ms[1..][n] == ms[n + 1];
      }
      WindowReaches(ms[1..], x, j - 1);
    }
  }

  /** Every assistant message is resolved by its own window. */
  ghost predicate AllAnswered(ms: History) {
    ms == [] || (CallIds(ms[0]) <= WindowIds(ms[1..]) && AllAnswered(ms[1..]))
  }

  lemma {:induction false} AllAnsweredAt(ms: History, i: nat)
    requires AllAnswered(ms) && i < |ms|
    ensures CallIds(ms[i]) <= WindowIds(ms[i + 1..])
  {
    if i > 0 {
      AllAnsweredAt(ms[1..], i - 1);
      assert ms[1..][i..] == ms[i + 1..];
    }
  }

  lemma {:induction false} AllAnsweredFromEach(ms: History)
    requires forall i | 0 <= i < |ms| :: CallIds(ms[i]) <= WindowIds(ms[i + 1..])
    ensures AllAnswered(ms)
  {
    if ms != [] {
      forall i | 0 <= i < |ms[1..]| ensures CallIds(ms[1..][i]) <= WindowIds(ms[1..][i + 1..]) {
        assert ms[1..][i + 1..] == ms[i + 1 + 1..];
        assert ms[1..][i] == ms[i + 1];
      }
      AllAnsweredFromEach(ms[1..]);
    }
  }

  /** Pruning only drops assistant messages, so it never narrows a window. */
  lemma {:induction false} PruneKeepsWindow(ms: History)
    ensures WindowIds(Prune(ms)) == WindowIds(ms)
  {
    if ms != [] {
      PruneKeepsWindow(ms[1..]);
    }
  }

  lemma {:induction false} PruneAnswers(ms: History)
    ensures AllAnswered(Prune(ms))
    ensures Prune(ms) == ms <==> AllAnswered(ms)
    ensures |Prune(ms)| <= |ms|
    ensures forall m <- Prune(ms) :: m in ms
    ensures forall k: ToolKey :: Count(Prune(ms), k) <= Count(ms, k)
  {
    if ms != [] {
      PruneAnswers(ms[1..]);
      PruneKeepsWindow(ms[1..]);
      assert ms == [ms[0]] + ms[1..];
    }
  }

  lemma {:induction false} NoEmptyIdSurvives(ms: History)
    requires AllAnswered(ms)
    ensures "" !in Surviving(ms)
  {
    if ms != [] {
      NoEmptyIdSurvives(ms[1..]);
      if "" in CallIds(ms[0]) {
        var j := WindowWitness(ms[1..], "");
      }
    }
  }

  // ---------------------------------------------------------------------------
  // Pass three
  // ---------------------------------------------------------------------------

  lemma {:induction false} KnownPartsLaws(ps: seq<Part>, ids: set<string>)
    ensures IdsOf(KnownParts(ps, ids), ToolResult) == IdsOf(ps, ToolResult) * ids
    ensures forall p <- KnownParts(ps, ids) :: p in ps
    ensures forall k: ToolKey :: PartCount(KnownParts(ps, ids), k) <= PartCount(ps, k)
    ensures KnownParts(ps, ids) == ps <==> IdsOf(ps, ToolResult) <= ids
    ensures |KnownParts(ps, ids)| <= |ps|
  {
    if ps != [] {
      assert ps == [ps[0]] + ps[1..];
      KnownPartsLaws(ps[1..], ids);
    }
  }

  ghost predicate ResultsWithin(ms: History, ids: set<string>) {
    forall m <- ms :: ResultIds(m) <= ids
  }

  lemma {:induction false} CleanKeepsWindow(ms: History, ids: set<string>)
    ensures WindowIds(Clean(ms, ids)) == WindowIds(ms) * ids
    ensures Surviving(Clean(ms, ids)) == Surviving(ms)
  {
    if ms != [] {
      CleanKeepsWindow(ms[1..], ids);
      if ms[0].role == Tool && ms[0].content.Parts? {
        KnownPartsLaws(ms[0].content.parts, ids);
        assert KnownParts(ms[0].content.parts, ids) == [] ==> ResultIds(ms[0]) * ids == {} by {
          assert IdsOf([], ToolResult) == {};
        }
      }
    }
  }

  lemma {:induction false} CleanLaws(ms: History, ids: set<string>)
    ensures ResultsWithin(Clean(ms, ids), ids)
    ensures forall k: ToolKey :: Count(Clean(ms, ids), k) <= Count(ms, k)
    ensures NoJunk(ms) ==> NoJunk(Clean(ms, ids))
  {
    if ms != [] {
      CleanLaws(ms[1..], ids);
      assert ms == [ms[0]] + ms[1..];
      if ms[0].role == Tool && ms[0].content.Parts? {
        KnownPartsLaws(ms[0].content.parts, ids);
      }
    }
  }

  lemma {:induction false} CleanFixed(ms: History, ids: set<string>)
    requires NoJunk(ms) && ResultsWithin(ms, ids)
    ensures Clean(ms, ids) == ms
  {
    if ms != [] {
      assert ms == [ms[0]] + ms[1..];
      assert ms[0] in ms;
      CleanFixed(ms[1..], ids);
      if ms[0].role == Tool && ms[0].content.Parts? {
        KnownPartsLaws(ms[0].content.parts, ids);
      }
    }
  }

  lemma {:induction false} CleanKeepsAnswers(ms: History, ids: set<string>)
    requires AllAnswered(ms) && Surviving(ms) <= ids
    ensures AllAnswered(Clean(ms, ids))
  {
    if ms != [] {
      CleanKeepsAnswers(ms[1..], ids);
      CleanKeepsWindow(ms[1..], ids);
    }
  }

  // ---------------------------------------------------------------------------
  // Pairing
  // ---------------------------------------------------------------------------

  lemma {:induction false} CountAppend(a: History, b: History, k: ToolKey)
    ensures Count(a + b, k) == Count(a, k) + Count(b, k)
  {
    if a == [] {
      assert a + b == b;
    } else {
      CountAppend(a[1..], b, k);
      assert (a + b)[1..] == a[1..] + b;
    }
  }

  lemma {:induction false} IdIsKey(ps: seq<Part>, kind: PartType, x: string)
    requires x != "" && (kind == ToolCall || kind == ToolResult)
    ensures x in IdsOf(ps, kind) <==> ToolKey(kind, x) in PartKeys(ps)
  {
    if ps != [] {
      IdIsKey(ps[1..], kind, x);
    }
  }

  lemma CountAt(m: Message, x: string)
    requires x in ResultIds(m) && x != ""
    ensures Count([m], ToolKey(ToolResult, x)) >= 1
  {
    IdIsKey(m.content.parts, ToolResult, x);
    PartCountPositive(m.content.parts, ToolKey(ToolResult, x));
  }

  lemma OneResultMessage(h: History, j: nat, j': nat, x: string)
    requires j < j' < |h| && x != "" && x in ResultIds(h[j]) && x in ResultIds(h[j'])
    ensures Count(h, ToolKey(ToolResult, x)) >= 2
  {
    var k := ToolKey(ToolResult, x);
    CountAt(h[j], x);
    CountAt(h[j'], x);
    assert h == h[..j] + ([h[j]] + (h[j + 1..j'] + ([h[j']] + h[j' + 1..])));
    CountAppend(h[..j], [h[j]] + (h[j + 1..j'] + ([h[j']] + h[j' + 1..])), k);
    CountAppend([h[j]], h[j + 1..j'] + ([h[j']] + h[j' + 1..]), k);
    CountAppend(h[j + 1..j'], [h[j']] + h[j' + 1..], k);
    CountAppend([h[j']], h[j' + 1..], k);
  }

  lemma {:induction false} SurvivingMeaning(ms: History, x: string)
    ensures x in Surviving(ms) <==> exists i :: 0 <= i < |ms| && x in CallIds(ms[i])
  {
    if ms != [] {
      SurvivingMeaning(ms[1..], x);
      forall i | 0 < i < |ms| ensures ms[1..][i - 1] == ms[i] {}
      if i :| 0 <= i < |ms[1..]| && x in CallIds(ms[1..][i]) {
        assert ms[i + 1] == ms[1..][i];
      }
    }
  }

  lemma AnsweredIsPaired(h: History, i: nat, x: string) returns (j: nat)
    requires AllAnswered(h) && i < |h| && x in CallIds(h[i])
    ensures Paired(h, i, j, x)
  {
    AllAnsweredAt(h, i);
    var d := WindowWitness(h[i + 1..], x);
    j := i + 1 + d;
    forall n | i + 1 <= n < j ensures !IsBoundary(h[n]) {
      assert h[i + 1..][n - i - 1] == h[n];
    }
  }

  lemma PairedIsAnswered(h: History, i: nat, j: nat, x: string)
    requires Paired(h, i, j, x)
    ensures x in WindowIds(h[i + 1..])
  {
    var tail := h[i + 1..];
    assert tail[j - i - 1] == h[j];
    assert NoBoundary(tail, 0, j - i - 1);
    WindowReaches(tail, x, j - i - 1);
  }

  lemma SurvivingResultIsPaired(h: History, j: nat, x: string) returns (i: nat)
    requires Unique(h) && AllAnswered(h) && ResultsWithin(h, Surviving(h))
    requires j < |h| && x in ResultIds(h[j])
    ensures Paired(h, i, j, x)
  {
    assert h[j] in h;
    SurvivingMeaning(h, x);
    i :| 0 <= i < |h| && x in CallIds(h[i]);
    var j' := AnsweredIsPaired(h, i, x);
    if j < j' {
      OneResultMessage(h, j, j', x);
    } else if j' < j {
      OneResultMessage(h, j', j, x);
    }
  }

  lemma PairedMeansAnswered(h: History)
    requires PairedBothWays(h)
    ensures AllAnswered(h) && ResultsWithin(h, Surviving(h))
  {
    forall i | 0 <= i < |h| ensures CallIds(h[i]) <= WindowIds(h[i + 1..]) {
      forall x | x in CallIds(h[i]) ensures x in WindowIds(h[i + 1..]) {
        var j :| Paired(h, i, j, x);
        PairedIsAnswered(h, i, j, x);
      }
    }
    AllAnsweredFromEach(h);
    forall m <- h ensures ResultIds(m) <= Surviving(h) {
      var j :| 0 <= j < |h| && h[j] == m;
      forall x | x in ResultIds(m) ensures x in Surviving(h) {
        var i :| Paired(h, i, j, x);
        SurvivingMeaning(h, x);
      }
    }
  }

  /**
   * Pairing, in its two shapes. With unique keys, the source's unordered test "this result's
   * call id survives somewhere" already places the call before the result in the same turn.
   */
  lemma PairingIff(h: History)
    requires Unique(h)
    ensures PairedBothWays(h) <==> AllAnswered(h) && ResultsWithin(h, Surviving(h))
  {
    if PairedBothWays(h) {
      PairedMeansAnswered(h);
    } else if AllAnswered(h) && ResultsWithin(h, Surviving(h)) {
      forall i, x | 0 <= i < |h| && x in CallIds(h[i]) ensures exists j :: Paired(h, i, j, x) {
        var j := AnsweredIsPaired(h, i, x);
      }
      forall j, x | 0 <= j < |h| && x in ResultIds(h[j]) ensures exists i :: Paired(h, i, j, x) {
        var i := SurvivingResultIsPaired(h, j, x);
      }
    }
  }

  // ---------------------------------------------------------------------------
  // Main results
  // ---------------------------------------------------------------------------

  /** Whatever the stored transcript, the sanitised one is well formed. */
  lemma SanitizeWellFormed(h: History)
    ensures WellFormed(Sanitize(h))
  {
    var d := Dedup(h, {});
    var p := Prune(d);
    var out := Clean(p, Surviving(p));
    forall k: ToolKey {
      DedupCount(h, {}, k);
    }
    DedupCount(h, {}, ToolKey(ToolCall, ""));
    PruneAnswers(d);
    CleanLaws(p, Surviving(p));
    CleanKeepsWindow(p, Surviving(p));
    CleanKeepsAnswers(p, Surviving(p));
    assert Unique(out) by {
      forall k: ToolKey ensures Count(out, k) <= 1 {
        assert Count(out, k) <= Count(p, k) <= Count(d, k);
      }
    }
    PairingIff(out);
  }

  /** Sanitising leaves a history alone exactly when it is already well formed. */
  lemma SanitizeFixedPoint(h: History)
    ensures Sanitize(h) == h <==> WellFormed(h)
  {
    if WellFormed(h) {
      DedupFixedIff(h);
      PairingIff(h);
      PruneAnswers(h);
      CleanFixed(h, Surviving(h));
    } else {
      SanitizeWellFormed(h);
    }
  }

  lemma SanitizeIdempotent(h: History)
    ensures Sanitize(Sanitize(h)) == Sanitize(h)
  {
    SanitizeWellFormed(h);
    SanitizeFixedPoint(Sanitize(h));
  }

  // ---------------------------------------------------------------------------
  // The last-resort scrub
  // ---------------------------------------------------------------------------

  lemma {:induction false} StripPartsLaws(ps: seq<Part>)
    ensures forall p <- StripParts(ps) :: Replayable(p) && p.providerOptions.None?
    ensures IdsOf(StripParts(ps), ToolCall) == IdsOf(ps, ToolCall)
    ensures IdsOf(StripParts(ps), ToolResult) == IdsOf(ps, ToolResult)
    ensures forall k: ToolKey :: PartCount(StripParts(ps), k) == PartCount(ps, k)
    ensures StripParts(StripParts(ps)) == StripParts(ps)
  {
    if ps != [] {
      StripPartsLaws(ps[1..]);
    }
  }

  lemma {:induction false} StripIsClean(h: History)
    ensures NoJunk(Strip(h))
    ensures Strip(Strip(h)) == Strip(h)
  {
    if h != [] {
      StripIsClean(h[1..]);
      if h[0].content.Parts? {
        StripPartsLaws(h[0].content.parts);
      }
    }
  }

  lemma {:induction false} StripCounts(h: History, k: ToolKey)
    ensures Count(Strip(h), k) == Count(h, k)
  {
    if h != [] {
      StripCounts(h[1..], k);
      if h[0].content.Parts? {
        StripPartsLaws(h[0].content.parts);
        assert PartCount(StripParts(h[0].content.parts), k) == PartCount(h[0].content.parts, k);
      }
    }
  }

  /** Scrubbing loses no tool id, and by dropping boundaries it can only widen a window. */
  lemma {:induction false} StripWidens(h: History)
    ensures WindowIds(h) <= WindowIds(Strip(h))
    ensures Surviving(Strip(h)) == Surviving(h)
    ensures AllAnswered(h) ==> AllAnswered(Strip(h))
  {
    if h != [] {
      StripWidens(h[1..]);
      if h[0].content.Parts? {
        StripPartsLaws(h[0].content.parts);
      }
    }
  }

  lemma {:induction false} StripKeepsResults(h: History, ids: set<string>)
    ensures ResultsWithin(h, ids) ==> ResultsWithin(Strip(h), ids)
  {
    if h != [] {
      assert h == [h[0]] + h[1..];
      StripKeepsResults(h[1..], ids);
      if h[0].content.Parts? {
        StripPartsLaws(h[0].content.parts);
      }
      if ResultsWithin(h, ids) {
        assert forall m <- h[1..] :: m in h;
        assert h[0] in h;
      }
    }
  }

  /** After the scrub, a sanitised history is still well formed and both functions leave it alone. */
  lemma StripOfSanitized(h: History)
    ensures WellFormed(Strip(Sanitize(h)))
    ensures Sanitize(Strip(Sanitize(h))) == Strip(Sanitize(h))
    ensures Strip(Strip(Sanitize(h))) == Strip(Sanitize(h))
  {
    var s := Sanitize(h);
    SanitizeWellFormed(h);
    PairingIff(s);
    StripIsClean(s);
    StripWidens(s);
    StripKeepsResults(s, Surviving(s));
    forall k: ToolKey {
      StripCounts(s, k);
    }
    PairingIff(Strip(s));
    SanitizeFixedPoint(Strip(s));
  }

  // ---------------------------------------------------------------------------
  // When scrubbing and sanitising can change places
  // ---------------------------------------------------------------------------

  lemma {:induction false} StripFreshParts(ps: seq<Part>, seen: set<ToolKey>)
    ensures FreshParts(StripParts(ps), seen) == StripParts(FreshParts(ps, seen))
    ensures PartKeys(StripParts(ps)) == PartKeys(ps)
  {
    if ps != [] {
      StripFreshParts(ps[1..], seen);
      if KeyOf(ps[0]).Some? {
        StripFreshParts(ps[1..], seen + {KeyOf(ps[0]).value});
      }
    }
  }

  /** The scrub commutes with pass one. */
  lemma {:induction false} StripDedup(h: History, seen: set<ToolKey>)
    ensures Dedup(Strip(h), seen) == Strip(Dedup(h, seen))
  {
    if h != [] {
      if h[0].content.Plain? {
        StripDedup(h[1..], seen);
      } else {
        var ps := h[0].content.parts;
        StripFreshParts(ps, seen);
        StripDedup(h[1..], seen + PartKeys(ps));
        if StripParts(ps) == [] {
          assert seen + PartKeys(ps) == seen;
        }
      }
    }
  }

  lemma {:induction false} StripKnownParts(ps: seq<Part>, ids: set<string>)
    ensures KnownParts(StripParts(ps), ids) == StripParts(KnownParts(ps, ids))
  {
    if ps != [] {
      StripKnownParts(ps[1..], ids);
    }
  }

  /** The scrub commutes with pass three. */
  lemma {:induction false} StripClean(ms: History, ids: set<string>)
    ensures Clean(Strip(ms), ids) == Strip(Clean(ms, ids))
  {
    if ms != [] {
      StripClean(ms[1..], ids);
      if ms[0].content.Parts? {
        StripKnownParts(ms[0].content.parts, ids);
      }
    }
  }

  /**
   * No assistant message is orphaned by its own window yet resolved by the window that reaches on
   * past the boundary messages with nothing replayable.
   */
  predicate SameVerdicts(ms: History) {
    ms == []
    || ((CallIds(ms[0]) <= WindowIds(Strip(ms[1..])) ==> CallIds(ms[0]) <= WindowIds(ms[1..]))
        && SameVerdicts(ms[1..]))
  }

  lemma StripHead(ms: History)
    requires ms != []
    ensures Strip(ms) == Strip([ms[0]]) + Strip(ms[1..]) && |Strip([ms[0]])| <= 1
    ensures Strip([ms[0]]) == [] ==> CallIds(ms[0]) == {}
    ensures Strip([ms[0]]) != [] ==> CallIds(Strip([ms[0]])[0]) == CallIds(ms[0])
  {
    hide Strip, StripParts, IdsOf;
    assert ms == [ms[0]] + ms[1..];
    StripAppend([ms[0]], ms[1..]);
    StripSingle(ms[0]);
    if ms[0].content.Parts? {
      StripPartsLaws(ms[0].content.parts);
      NoIds(ToolCall);
    }
  }

  lemma {:induction false} StripAppend(a: History, b: History)
    ensures Strip(a + b) == Strip(a) + Strip(b)
  {
    if a == [] {
      assert a + b == b;
    } else {
      assert (a + b)[1..] == a[1..] + b;
      StripAppend(a[1..], b);
    }
  }

  lemma StripNone()
    ensures Strip([]) == []
  {
  }

  lemma StripSingle(m: Message)
    ensures Strip([m]) == if m.content.Plain? then [m]
                          else if StripParts(m.content.parts) == [] then []
                          else [m.(content := Parts(StripParts(m.content.parts)))]
  {
    assert [m][1..] == [];
  }

  lemma NoIds(kind: PartType)
    ensures IdsOf([], kind) == {}
  {
  }

  /** With the same verdicts, the scrub commutes with pass two. */
  lemma {:induction false} StripPrune(ms: History)
    requires SameVerdicts(ms)
    ensures Prune(Strip(ms)) == Strip(Prune(ms))
  {
    if ms != [] {
      StripPrune(ms[1..]);
      StripHead(ms);
      StripWidens(ms[1..]);
      var head := Strip([ms[0]]);
      assert head == [] ==> Strip(ms) == Strip(ms[1..]);
      assert head != [] ==> Strip(ms) == head + Strip(ms[1..]) && Strip(ms)[1..] == Strip(ms[1..]);
      StripHead([ms[0]] + Prune(ms[1..]));
      assert ([ms[0]] + Prune(ms[1..]))[1..] == Prune(ms[1..]);
    }
  }

  lemma {:induction false} SurvivingCounts(ms: History, x: string)
    requires x != "" && x in Surviving(ms)
    ensures Count(ms, ToolKey(ToolCall, x)) >= 1
  {
    if x in CallIds(ms[0]) {
      CallCounts(ms[0], x);
    } else {
      SurvivingCounts(ms[1..], x);
    }
  }

  lemma CallCounts(m: Message, x: string)
    requires x != "" && x in CallIds(m)
    ensures m.content.Parts? && PartCount(m.content.parts, ToolKey(ToolCall, x)) >= 1
  {
    IdIsKey(m.content.parts, ToolCall, x);
    PartCountPositive(m.content.parts, ToolKey(ToolCall, x));
  }

  lemma {:induction false} PruneLosesCalls(ms: History)
    ensures Surviving(Prune(ms)) <= Surviving(ms)
  {
    if ms != [] {
      PruneLosesCalls(ms[1..]);
    }
  }

  /** Otherwise the scrub rescues a call: it survives in one order and, being unique, not in the other. */
  lemma {:induction false} Rescued(ms: History) returns (x: string)
    requires !SameVerdicts(ms) && Unique(ms)
    ensures x in Surviving(Prune(Strip(ms))) && x !in Surviving(Prune(ms))
  {
    var tail := ms[1..];
    StripHead(ms);
    StripWidens(tail);
    PruneLosesCalls(tail);
    var head := Strip([ms[0]]);
    assert head == [] ==> Strip(ms) == Strip(tail);
    assert head != [] ==> Strip(ms)[0] == head[0] && Strip(ms)[1..] == Strip(tail);
    assert forall k: ToolKey :: Count(tail, k) <= Count(ms, k);
    if CallIds(ms[0]) <= WindowIds(Strip(tail)) && !(CallIds(ms[0]) <= WindowIds(tail)) {
      x :| x in CallIds(ms[0]) && x !in WindowIds(tail);
      var j := WindowWitness(Strip(tail), x);
    } else {
      x := Rescued(tail);
      PruneLosesCalls(Strip(tail));
      PruneAnswers(Strip(tail));
      NoEmptyIdSurvives(Prune(Strip(tail)));
      assert x in Surviving(tail);
      SurvivingCounts(tail, x);
    }
    assert Count(ms, ToolKey(ToolCall, x)) <= 1;
    if x in CallIds(ms[0]) {
      CallCounts(ms[0], x);
    }
    if x in Surviving(tail) {
      SurvivingCounts(tail, x);
    }
  }

  /**
   * Sanitising and scrubbing change places exactly when, after pass one, no orphaned call gains
   * its results by passing over boundary messages with nothing replayable.
   */
  lemma OrdersAgreeExactly(h: History)
    ensures Sanitize(Strip(h)) == Strip(Sanitize(h)) <==> SameVerdicts(Dedup(h, {}))
  {
    var d := Dedup(h, {});
    var p, q := Prune(d), Prune(Strip(d));
    StripDedup(h, {});
    StripWidens(p);
    CleanKeepsWindow(p, Surviving(p));
    CleanKeepsWindow(q, Surviving(q));
    StripWidens(Clean(p, Surviving(p)));
    if SameVerdicts(d) {
      StripPrune(d);
      StripClean(p, Surviving(p));
    } else {
      forall k: ToolKey {
        DedupCount(h, {}, k);
      }
      var x := Rescued(d);
    }
  }

  /** A boundary message that the scrub cannot drop: something replayable in it is no tool part. */
  ghost predicate Anchored(m: Message) {
    IsBoundary(m) && m.content.Parts? ==> exists p <- m.content.parts :: Replayable(p) && KeyOf(p).None?
  }

  lemma {:induction false} AnchorStays(ps: seq<Part>, seen: set<ToolKey>, p: Part)
    requires p in ps && Replayable(p) && KeyOf(p).None?
    ensures p in FreshParts(ps, seen)
  {
    if ps[0] != p {
      AnchorStays(ps[1..], seen, p);
      if KeyOf(ps[0]).Some? {
        AnchorStays(ps[1..], seen + {KeyOf(ps[0]).value}, p);
      }
    }
  }

  lemma {:induction false} DedupAnchored(h: History, seen: set<ToolKey>)
    requires forall m <- h :: Anchored(m)
    ensures forall m <- Dedup(h, seen) :: Anchored(m)
  {
    if h != [] {
      assert h[0] in h;
      if h[0].content.Plain? {
        DedupAnchored(h[1..], seen);
      } else {
        var ps := h[0].content.parts;
        DedupAnchored(h[1..], seen + PartKeys(ps));
        if IsBoundary(h[0]) {
          var p :| p in ps && Replayable(p) && KeyOf(p).None?;
          AnchorStays(ps, seen, p);
        }
      }
    }
  }

  lemma {:induction false} ReplayableStays(ps: seq<Part>, p: Part)
    requires p in ps && Replayable(p)
    ensures StripParts(ps) != []
  {
    if ps[0] != p {
      ReplayableStays(ps[1..], p);
    }
  }

  lemma {:induction false} AnchoredVerdicts(ms: History)
    requires forall m <- ms :: Anchored(m)
    ensures WindowIds(Strip(ms)) == WindowIds(ms) && SameVerdicts(ms)
  {
    if ms != [] {
      AnchoredVerdicts(ms[1..]);
      assert ms[0] in ms;
      if ms[0].content.Parts? {
        StripPartsLaws(ms[0].content.parts);
        if IsBoundary(ms[0]) {
          var p :| p in ms[0].content.parts && Replayable(p) && KeyOf(p).None?;
          ReplayableStays(ms[0].content.parts, p);
        }
      }
    }
  }

  /** So the orders agree whenever each user or system message is text or carries some text or media. */
  lemma OrdersAgreeWhenAnchored(h: History)
    requires forall m <- h :: Anchored(m)
    ensures Sanitize(Strip(h)) == Strip(Sanitize(h))
  {
    DedupAnchored(h, {});
    AnchoredVerdicts(Dedup(h, {}));
    OrdersAgreeExactly(h);
  }

  /** A call and its result, parted by a user message that holds only a volatile part. */
  ghost predicate PartedExchange(call: Message, user: Message, result: Message) {
    && call == Message(Assistant, Parts([Part(ToolCall, Some("a"), "", None)]))
    && user == Message(User, Parts([Part(OtherType, None, "", None)]))
    && result == Message(Tool, Parts([Part(ToolResult, Some("a"), "", None)]))
  }

  lemma SanitizeDropsParted(call: Message, user: Message, result: Message)
    requires PartedExchange(call, user, result)
    ensures Strip(Sanitize([call, user, result])) == []
  {
    var cp, up, rp := call.content.parts[0], user.content.parts[0], result.content.parts[0];
    var h, rest := [call, user, result], [user, result];
    var seen := {} + PartKeys([cp]);
    SinglePart(cp, {});
    SinglePart(up, seen);
    SinglePart(rp, seen + PartKeys([up]));
    assert h[1..] == rest && rest[1..] == [result];
    assert Dedup(h, {}) == h by {
      assert Dedup([result], seen + PartKeys([up])) == [result];
      assert Dedup(rest, seen) == rest;
    }
    assert Prune(h) == rest by {
      assert Prune([result]) == [result];
    }
    assert Surviving(rest) == {} by {
      assert Surviving([result]) == {};
    }
    assert KnownParts([rp], {}) == [];
    assert Clean(rest, {}) == [user] by {
      assert Clean([result], {}) == [];
    }
    assert Strip([user]) == [];
  }

  lemma StripJoinsParted(call: Message, user: Message, result: Message)
    requires PartedExchange(call, user, result)
    ensures Strip([call, user, result]) == [call, result]
    ensures Sanitize([call, result]) != []
  {
    var cp, up, rp := call.content.parts[0], user.content.parts[0], result.content.parts[0];
    var seen := {} + PartKeys([cp]);
    SinglePart(cp, {});
    SinglePart(up, seen);
    SinglePart(rp, seen);
    assert [call, user, result][1..] == [user, result] && [user, result][1..] == [call, result][1..] == [result];
    assert Strip([user, result]) == [result] by {
      assert Strip([result]) == [result];
    }
    assert Dedup([call, result], {}) == [call, result] by {
      assert Dedup([result], seen) == [result];
    }
    assert "a" in WindowIds([result]);
  }

  /** An instance where they differ: the scrub drops the user message that separated a call from its result. */
  lemma StripThenSanitizeDiffers()
    ensures exists h: History :: Sanitize(Strip(h)) != Strip(Sanitize(h))
  {
    var call := Message(Assistant, Parts([Part(ToolCall, Some("a"), "", None)]));
    var user := Message(User, Parts([Part(OtherType, None, "", None)]));
    var result := Message(Tool, Parts([Part(ToolResult, Some("a"), "", None)]));
    SanitizeDropsParted(call, user, result);
    StripJoinsParted(call, user, result);
  }

  lemma SinglePart(p: Part, seen: set<ToolKey>)
    ensures FreshParts([p], seen) ==
            if p.kind == Reasoning || (KeyOf(p).Some? && KeyOf(p).value in seen) then [] else [p]
    ensures PartKeys([p]) == if KeyOf(p).Some? then {KeyOf(p).value} else {}
    ensures StripParts([p]) == if Replayable(p) then [p.(providerOptions := None)] else []
    ensures forall kind ::
              IdsOf([p], kind) == if p.kind == kind && p.toolCallId.Some? then {p.toolCallId.value} else {}
  {
    assert [p][1..] == [];
  }

  // ---------------------------------------------------------------------------
  // Turn locality
  // ---------------------------------------------------------------------------

  function ToolIds(h: History): set<string> {
    set k | k in Keys(h) :: k.id
  }

  /** A user or system message that carries no tool part and no reasoning part. */
  ghost predicate IsPlainTurn(m: Message) {
    && IsBoundary(m)
    && (m.content.Parts? ==>
          && m.content.parts != []
          && forall p <- m.content.parts :: p.kind != Reasoning && p.kind != ToolCall && p.kind != ToolResult)
  }

  lemma {:induction false} FreshPartsIgnores(ps: seq<Part>, seen: set<ToolKey>, other: set<ToolKey>)
    requires PartKeys(ps) !! other
    ensures FreshParts(ps, seen + other) == FreshParts(ps, seen)
  {
    if ps != [] {
      assert PartKeys(ps[1..]) <= PartKeys(ps);
      FreshPartsIgnores(ps[1..], seen, other);
      if KeyOf(ps[0]).Some? {
        var k := KeyOf(ps[0]).value;
        assert ps[0] in ps && k in PartKeys(ps);
        FreshPartsIgnores(ps[1..], seen + {k}, other);
        assert seen + other + {k} == seen + {k} + other;
      }
    }
  }

  lemma {:induction false} DedupIgnores(h: History, seen: set<ToolKey>, other: set<ToolKey>)
    requires Keys(h) !! other
    ensures Dedup(h, seen + other) == Dedup(h, seen)
  {
    if h != [] {
      if h[0].content.Plain? {
        DedupIgnores(h[1..], seen, other);
      } else {
        var ps := h[0].content.parts;
        FreshPartsIgnores(ps, seen, other);
        DedupIgnores(h[1..], seen + PartKeys(ps), other);
        assert seen + other + PartKeys(ps) == seen + PartKeys(ps) + other;
      }
    }
  }

  lemma {:induction false} DedupAppend(a: History, b: History, seen: set<ToolKey>)
    ensures Dedup(a + b, seen) == Dedup(a, seen) + Dedup(b, seen + Keys(a))
  {
    if a == [] {
      assert a + b == b;
      assert seen + Keys(a) == seen;
    } else {
      assert (a + b)[1..] == a[1..] + b;
      if a[0].content.Plain? {
        assert Keys(a) == Keys(a[1..]);
        DedupAppend(a[1..], b, seen);
      } else {
        var ks := PartKeys(a[0].content.parts);
        DedupAppend(a[1..], b, seen + ks);
        assert seen + ks + Keys(a[1..]) == seen + Keys(a);
      }
    }
  }

  lemma {:induction false} PruneAcross(a: History, u: Message, b: History)
    requires IsBoundary(u)
    ensures WindowIds(a + [u] + b) == WindowIds(a)
    ensures Prune(a + [u] + b) == Prune(a) + [u] + Prune(b)
  {
    hide CallIds, ResultIds, Prune, WindowIds;
    if a == [] {
      assert a + [u] + b == [u] + b;
      Unfold([u] + b);
      assert ([u] + b)[1..] == b;
      Unfold([]);
      BoundaryCalls(u);
    } else {
      PruneAcross(a[1..], u, b);
      assert (a + [u] + b)[1..] == a[1..] + [u] + b;
      Unfold(a);
      Unfold(a + [u] + b);
    }
  }

  lemma BoundaryCalls(u: Message)
    requires IsBoundary(u)
    ensures CallIds(u) == {}
  {
  }

  /** One step of pass two and of its windows. */
  lemma Unfold(ms: History)
    ensures Prune(ms) == if ms == [] then []
                         else (if CallIds(ms[0]) <= WindowIds(ms[1..]) then [ms[0]] else []) + Prune(ms[1..])
    ensures WindowIds(ms) == if ms == [] || IsBoundary(ms[0]) then {}
                             else (ResultIds(ms[0]) - {""}) + WindowIds(ms[1..])
  {
  }

  lemma {:induction false} SurvivingAppend(a: History, b: History)
    ensures Surviving(a + b) == Surviving(a) + Surviving(b)
  {
    if a == [] {
      assert a + b == b;
    } else {
      assert (a + b)[1..] == a[1..] + b;
      SurvivingAppend(a[1..], b);
    }
  }

  lemma {:induction false} CleanAppend(a: History, b: History, ids: set<string>)
    ensures Clean(a + b, ids) == Clean(a, ids) + Clean(b, ids)
  {
    if a == [] {
      assert a + b == b;
    } else {
      assert (a + b)[1..] == a[1..] + b;
      CleanAppend(a[1..], b, ids);
    }
  }

  lemma CleanSingle(ms: History, ids: set<string>)
    requires |ms| <= 1
    ensures Clean(ms, ids) == if ms == [] then []
                              else if ms[0].role != Tool || ms[0].content.Plain? then ms
                              else if KnownParts(ms[0].content.parts, ids) == [] then []
                              else [ms[0].(content := Parts(KnownParts(ms[0].content.parts, ids)))]
  {
    if ms != [] {
      assert ms[1..] == [];
    }
  }

  lemma {:induction false} KnownPartsIgnores(ps: seq<Part>, ids: set<string>, other: set<string>)
    requires IdsOf(ps, ToolResult) !! other
    ensures KnownParts(ps, ids + other) == KnownParts(ps, ids)
  {
    if ps != [] {
      assert ps[0] in ps;
      assert IdsOf(ps[1..], ToolResult) <= IdsOf(ps, ToolResult);
      KnownPartsIgnores(ps[1..], ids, other);
    }
  }

  lemma {:induction false} CleanIgnores(ms: History, ids: set<string>, other: set<string>)
    requires forall m <- ms :: ResultIds(m) !! other
    ensures Clean(ms, ids + other) == Clean(ms, ids)
  {
    if ms != [] {
      assert ms[0] in ms;
      CleanIgnores(ms[1..], ids, other);
      if ms[0].role == Tool && ms[0].content.Parts? {
        KnownPartsIgnores(ms[0].content.parts, ids, other);
      }
    }
  }

  lemma {:induction false} FreshPartsIds(ps: seq<Part>, seen: set<ToolKey>, kind: PartType)
    ensures IdsOf(FreshParts(ps, seen), kind) <= IdsOf(ps, kind)
  {
    if ps != [] {
      FreshPartsIds(ps[1..], seen, kind);
      if KeyOf(ps[0]).Some? {
        FreshPartsIds(ps[1..], seen + {KeyOf(ps[0]).value}, kind);
      }
    }
  }

  ghost predicate IdsWithin(m: Message, ids: set<string>) {
    CallIds(m) <= ids + {""} && ResultIds(m) <= ids + {""}
  }

  lemma MessageIds(m: Message, seen: set<ToolKey>)
    requires m.content.Parts?
    ensures IdsWithin(m, ToolIds([m]))
    ensures IdsWithin(m.(content := Parts(FreshParts(m.content.parts, seen))), ToolIds([m]))
  {
    var ps := m.content.parts;
    forall kind, x | (kind == ToolCall || kind == ToolResult) && x != "" && x in IdsOf(ps, kind)
      ensures x in ToolIds([m])
    {
      IdIsKey(ps, kind, x);
      assert ToolKey(kind, x) in Keys([m]);
    }
    FreshPartsIds(ps, seen, ToolCall);
    FreshPartsIds(ps, seen, ToolResult);
  }

  lemma {:induction false} DedupIds(h: History, seen: set<ToolKey>)
    ensures forall m <- Dedup(h, seen) :: IdsWithin(m, ToolIds(h))
  {
    if h != [] {
      assert Keys(h) == Keys([h[0]]) + Keys(h[1..]);
      assert ToolIds([h[0]]) <= ToolIds(h) && ToolIds(h[1..]) <= ToolIds(h);
      if h[0].content.Plain? {
        DedupIds(h[1..], seen);
      } else {
        DedupIds(h[1..], seen + PartKeys(h[0].content.parts));
        MessageIds(h[0], seen);
      }
    }
  }

  /** Pass two leaves only ids of its own input, and no empty id survives it. */
  lemma IdsStayIn(h: History)
    ensures "" !in Surviving(Prune(Dedup(h, {})))
    ensures Surviving(Prune(Dedup(h, {}))) <= ToolIds(h)
    ensures forall m <- Prune(Dedup(h, {})) :: ResultIds(m) <= ToolIds(h) + {""}
  {
    var p := Prune(Dedup(h, {}));
    DedupIds(h, {});
    PruneAnswers(Dedup(h, {}));
    NoEmptyIdSurvives(p);
    forall x | x in Surviving(p) ensures x in ToolIds(h) {
      SurvivingMeaning(p, x);
      var i :| 0 <= i < |p| && x in CallIds(p[i]);
      assert p[i] in p;
    }
  }

  lemma {:induction false} NoToolParts(ps: seq<Part>, seen: set<ToolKey>)
    requires forall p <- ps :: p.kind != Reasoning && p.kind != ToolCall && p.kind != ToolResult
    ensures FreshParts(ps, seen) == ps && PartKeys(ps) == {}
  {
    if ps != [] {
      assert ps[0] in ps && KeyOf(ps[0]).None?;
      assert forall p <- ps[1..] :: p in ps;
      NoToolParts(ps[1..], seen);
    }
  }

  lemma DedupSplit(h1: History, u: Message, h2: History)
    requires IsPlainTurn(u)
    requires ToolIds(h1) !! ToolIds(h2)
    ensures Dedup(h1 + [u] + h2, {}) == Dedup(h1, {}) + [u] + Dedup(h2, {})
  {
    var seen := Keys(h1);
    assert {} + seen == seen;
    assert Dedup([u], seen) == [u] && Keys([u]) == {} by {
      assert [u][1..] == [];
      if u.content.Parts? {
        NoToolParts(u.content.parts, seen);
      }
    }
    assert Dedup([u] + h2, seen) == [u] + Dedup(h2, {}) by {
      DedupAppend([u], h2, seen);
      assert seen + Keys([u]) == seen;
      forall k | k in Keys(h2) ensures k !in seen {
        assert k.id in ToolIds(h2);
      }
      DedupIgnores(h2, {}, seen);
    }
    DedupAppend(h1, [u] + h2, {});
    Sequences.Assoc(h1, [u], h2);
    Sequences.Assoc(Dedup(h1, {}), [u], Dedup(h2, {}));
  }

  /** Pass three over two separated stretches uses only each stretch's own surviving ids. */
  lemma CleanSplit(p1: History, u: Message, p2: History)
    requires IsBoundary(u)
    requires forall m <- p1 :: ResultIds(m) !! Surviving(p2)
    requires forall m <- p2 :: ResultIds(m) !! Surviving(p1)
    ensures var all := p1 + [u] + p2;
            Clean(all, Surviving(all)) == Clean(p1, Surviving(p1)) + [u] + Clean(p2, Surviving(p2))
  {
    var s1, s2 := Surviving(p1), Surviving(p2);
    SurvivingAppend(p1 + [u], p2);
    SurvivingAppend(p1, [u]);
    assert Surviving([u]) == {};
    assert Surviving(p1 + [u] + p2) == s1 + s2;
    CleanAppend(p1 + [u], p2, s1 + s2);
    CleanAppend(p1, [u], s1 + s2);
    assert Clean([u], s1 + s2) == [u];
    CleanIgnores(p1, s1, s2);
    CleanIgnores(p2, s2, s1);
    assert s2 + s1 == s1 + s2;
  }

  /**
   * Turn locality: a plain user message between two stretches with disjoint tool ids splits
   * the work, so appending the next inbound message never disturbs what came before it.
   */
  lemma TurnLocality(h1: History, u: Message, h2: History)
    requires IsPlainTurn(u)
    requires ToolIds(h1) !! ToolIds(h2)
    ensures Sanitize(h1 + [u] + h2) == Sanitize(h1) + [u] + Sanitize(h2)
  {
    DedupSplit(h1, u, h2);
    PruneAcross(Dedup(h1, {}), u, Dedup(h2, {}));
    IdsStayIn(h1);
    IdsStayIn(h2);
    CleanSplit(Prune(Dedup(h1, {})), u, Prune(Dedup(h2, {})));
  }

  /** Appending the new inbound message to a clean history leaves it clean. */
  lemma AppendInbound(h: History, u: Message)
    requires WellFormed(h) && IsPlainTurn(u)
    ensures WellFormed(h + [u])
  {
    SanitizeFixedPoint(h);
    TurnLocality(h, u, []);
    assert h + [u] + [] == h + [u];
    assert Sanitize(h) + [u] + Sanitize([]) == h + [u];
    SanitizeFixedPoint(h + [u]);
  }

  // ---------------------------------------------------------------------------
  // Recovery of sessions stored as cumulative snapshots
  // ---------------------------------------------------------------------------

  /** The tool parts of a list of parts. */
  function ToolParts(ps: seq<Part>): seq<Part> {
    if ps == [] then []
    else if ps[0].kind == ToolCall || ps[0].kind == ToolResult then [ps[0]] + ToolParts(ps[1..])
    else ToolParts(ps[1..])
  }

  /** A history reduced to its tool calls and results, in their order and their messages. */
  function Skeleton(h: History): History {
    if h == [] then []
    else if h[0].content.Plain? || ToolParts(h[0].content.parts) == [] then Skeleton(h[1..])
    else [h[0].(content := Parts(ToolParts(h[0].content.parts)))] + Skeleton(h[1..])
  }

  /** Steps of a run: no user or system message, and every tool part has a non-empty string id. */
  ghost predicate IsRun(h: History) {
    forall m <- h :: !IsBoundary(m) && (m.content.Parts? ==> AllKeyed(m.content.parts))
  }

  ghost predicate AllKeyed(ps: seq<Part>) {
    forall p <- ps | p.kind == ToolCall || p.kind == ToolResult :: KeyOf(p).Some?
  }

  /** s1 + ... + sn: the run as it happened. */
  function Flatten(steps: seq<History>): History {
    if steps == [] then [] else Flatten(steps[..|steps| - 1]) + steps[|steps| - 1]
  }

  /** s1, then s1 + s2, ..., then s1 + ... + sn: the run as old runtime code stored it. */
  function Snapshots(steps: seq<History>): History {
    if steps == [] then [] else Snapshots(steps[..|steps| - 1]) + Flatten(steps)
  }

  lemma {:induction false} ToolPartsLaws(ps: seq<Part>, seen: set<ToolKey>)
    ensures ToolParts(FreshParts(ps, seen)) == FreshParts(ToolParts(ps), seen)
    ensures PartKeys(ToolParts(ps)) == PartKeys(ps)
    ensures ToolParts(ps) == [] ==> FreshParts(ToolParts(ps), seen) == []
  {
    if ps != [] {
      ToolPartsLaws(ps[1..], seen);
      if KeyOf(ps[0]).Some? {
        ToolPartsLaws(ps[1..], seen + {KeyOf(ps[0]).value});
      }
    }
  }

  lemma {:induction false} ToolPartsIds(ps: seq<Part>, ids: set<string>)
    ensures IdsOf(ToolParts(ps), ToolCall) == IdsOf(ps, ToolCall)
    ensures IdsOf(ToolParts(ps), ToolResult) == IdsOf(ps, ToolResult)
    ensures ToolParts(KnownParts(ps, ids)) == KnownParts(ToolParts(ps), ids)
  {
    if ps != [] {
      ToolPartsIds(ps[1..], ids);
    }
  }

  lemma {:induction false} SkeletonDedup(h: History, seen: set<ToolKey>)
    ensures Skeleton(Dedup(h, seen)) == Dedup(Skeleton(h), seen)
  {
    if h != [] {
      if h[0].content.Plain? {
        SkeletonDedup(h[1..], seen);
      } else {
        var ps := h[0].content.parts;
        ToolPartsLaws(ps, seen);
        SkeletonDedup(h[1..], seen + PartKeys(ps));
        if ToolParts(ps) == [] {
          assert PartKeys(ps) == {};
          assert seen + PartKeys(ps) == seen;
        }
      }
    }
  }

  /** Without a boundary message, windows and pruning depend on the tool parts alone. */
  lemma {:induction false} SkeletonPrune(h: History)
    requires forall m <- h :: !IsBoundary(m)
    ensures WindowIds(Skeleton(h)) == WindowIds(h)
    ensures Skeleton(Prune(h)) == Prune(Skeleton(h))
  {
    if h != [] {
      SkeletonPrune(h[1..]);
      if h[0].content.Parts? {
        ToolPartsIds(h[0].content.parts, {});
        if ToolParts(h[0].content.parts) == [] {
          assert CallIds(h[0]) == {} && ResultIds(h[0]) == {};
        }
      }
    }
  }

  lemma {:induction false} SkeletonSurviving(h: History)
    ensures Surviving(Skeleton(h)) == Surviving(h)
  {
    hide KnownParts;
    if h != [] {
      SkeletonSurviving(h[1..]);
      if h[0].content.Parts? {
        ToolPartsIds(h[0].content.parts, {});
      }
    }
  }

  lemma {:induction false} SkeletonClean(h: History, ids: set<string>)
    ensures Skeleton(Clean(h, ids)) == Clean(Skeleton(h), ids)
  {
    hide IdsOf;
    if h != [] {
      SkeletonClean(h[1..], ids);
      if h[0].content.Parts? {
        ToolPartsIds(h[0].content.parts, ids);
      }
    }
  }

  lemma {:induction false} DedupKeepsNoBoundary(h: History, seen: set<ToolKey>)
    requires forall m <- h :: !IsBoundary(m)
    ensures forall m <- Dedup(h, seen) :: !IsBoundary(m)
  {
    if h != [] {
      assert h[0] in h;
      DedupKeepsNoBoundary(h[1..], if h[0].content.Plain? then seen else seen + PartKeys(h[0].content.parts));
    }
  }

  lemma SkeletonSanitize(h: History)
    requires forall m <- h :: !IsBoundary(m)
    ensures Skeleton(Sanitize(h)) == Sanitize(Skeleton(h))
  {
    var d := Dedup(h, {});
    SkeletonDedup(h, {});
    DedupKeepsNoBoundary(h, {});
    SkeletonPrune(d);
    SkeletonSurviving(Prune(d));
    SkeletonClean(Prune(d), Surviving(Prune(d)));
  }

  lemma {:induction false} SkeletonAppend(a: History, b: History)
    ensures Skeleton(a + b) == Skeleton(a) + Skeleton(b)
  {
    if a == [] {
      assert a + b == b;
    } else {
      assert (a + b)[1..] == a[1..] + b;
      SkeletonAppend(a[1..], b);
    }
  }

  lemma {:induction false} SeenPartsVanish(ps: seq<Part>, seen: set<ToolKey>)
    requires AllKeyed(ps) && PartKeys(ps) <= seen
    ensures FreshParts(ToolParts(ps), seen) == []
  {
    if ps != [] {
      assert ps[0] in ps;
      SeenPartsVanish(ps[1..], seen);
    }
  }

  /** A replay of steps already seen leaves no tool part behind. */
  lemma {:induction false} ReplayVanishes(h: History, seen: set<ToolKey>)
    requires IsRun(h) && Keys(h) <= seen
    ensures Dedup(Skeleton(h), seen) == []
  {
    if h != [] {
      assert h[0] in h;
      ReplayVanishes(h[1..], seen);
      if h[0].content.Parts? {
        var ps := h[0].content.parts;
        SeenPartsVanish(ps, seen);
        ToolPartsLaws(ps, seen);
        assert seen + PartKeys(ps) == seen;
      }
    }
  }

  lemma {:induction false} SkeletonKeys(h: History)
    ensures Keys(Skeleton(h)) == Keys(h)
  {
    if h != [] {
      SkeletonKeys(h[1..]);
      if h[0].content.Parts? {
        ToolPartsLaws(h[0].content.parts, {});
      }
    }
  }

  lemma {:induction false} KeysAppend(a: History, b: History)
    ensures Keys(a + b) == Keys(a) + Keys(b)
  {
    if a == [] {
      assert a + b == b;
    } else {
      assert (a + b)[1..] == a[1..] + b;
      KeysAppend(a[1..], b);
    }
  }

  lemma {:induction false} SnapshotsLaws(steps: seq<History>)
    requires forall s <- steps :: IsRun(s)
    ensures IsRun(Flatten(steps)) && IsRun(Snapshots(steps))
    ensures Keys(Snapshots(steps)) == Keys(Flatten(steps))
  {
    if steps != [] {
      var before, last := steps[..|steps| - 1], steps[|steps| - 1];
      assert last in steps && forall s <- before :: s in steps;
      SnapshotsLaws(before);
      KeysAppend(Snapshots(before), Flatten(steps));
      KeysAppend(Flatten(before), last);
    }
  }

  /** When `run` leaves nothing after itself, storing it again before its next step adds only that step. */
  lemma ReplayThenNew(stored: History, run: History, last: History)
    requires Keys(stored) == Keys(run)
    requires Dedup(stored, {}) == Dedup(run, {}) && Dedup(run, Keys(run)) == []
    ensures Dedup(stored + (run + last), {}) == Dedup(run + last, {})
  {
    var seen := Keys(run);
    var news := Dedup(last, seen);
    assert Dedup(run + last, {}) == Dedup(run, {}) + news by {
      assert {} + seen == seen;
      DedupAppend(run, last, {});
    }
    assert Dedup(run + last, seen) == news by {
      assert seen + seen == seen;
      DedupAppend(run, last, seen);
    }
    assert {} + seen == seen;
    DedupAppend(stored, run + last, {});
  }

  lemma {:induction false} SnapshotsDedup(steps: seq<History>)
    requires forall s <- steps :: IsRun(s)
    ensures Dedup(Skeleton(Snapshots(steps)), {}) == Dedup(Skeleton(Flatten(steps)), {})
  {
    if steps != [] {
      var before, last := steps[..|steps| - 1], steps[|steps| - 1];
      var stored, run := Snapshots(before), Flatten(before);
      SnapshotsDedup(before);
      SnapshotsLaws(before);
      SkeletonKeys(stored);
      SkeletonKeys(run);
      ReplayVanishes(run, Keys(run));
      ReplayThenNew(Skeleton(stored), Skeleton(run), Skeleton(last));
      SkeletonAppend(stored, run + last);
      SkeletonAppend(run, last);
    }
  }

  /**
   * Poisoned-session recovery: a run stored as cumulative snapshots is sanitised to the same
   * tool calls and results, in the same order and grouped into the same messages, as the run
   * stored once.
   */
  lemma SnapshotRecovery(steps: seq<History>)
    requires forall s <- steps :: IsRun(s)
    ensures Skeleton(Sanitize(Snapshots(steps))) == Skeleton(Sanitize(Flatten(steps)))
  {
    SnapshotsLaws(steps);
    SnapshotsDedup(steps);
    SkeletonSanitize(Snapshots(steps));
    SkeletonSanitize(Flatten(steps));
  }

  /** An inbound message and the steps of the run that answers it. */
  datatype Turn = Turn(inbound: Message, steps: seq<History>)

  /** A session as old runtime code stored it, each run as its cumulative snapshots. */
  function Stored(turns: seq<Turn>): History {
    if turns == [] then []
    else
      var last := turns[|turns| - 1];
      Stored(turns[..|turns| - 1]) + [last.inbound] + Snapshots(last.steps)
  }

  /** The session with each run stored once. */
  function Once(turns: seq<Turn>): History {
    if turns == [] then []
    else
      var last := turns[|turns| - 1];
      Once(turns[..|turns| - 1]) + [last.inbound] + Flatten(last.steps)
  }

  ghost predicate ValidTurn(t: Turn) {
    IsPlainTurn(t.inbound) && forall s <- t.steps :: IsRun(s)
  }

  ghost predicate ApartTurns(turns: seq<Turn>) {
    forall i, j | 0 <= i < j < |turns| :: ToolIds(Flatten(turns[i].steps)) !! ToolIds(Flatten(turns[j].steps))
  }

  lemma {:induction false} SameKeysSameIds(a: History, b: History)
    requires Keys(a) == Keys(b)
    ensures ToolIds(a) == ToolIds(b)
  {
  }

  lemma ToolIdsAppend(a: History, b: History)
    ensures ToolIds(a + b) == ToolIds(a) + ToolIds(b)
  {
    hide Keys;
    KeysAppend(a, b);
  }

  lemma PlainTurnIds(u: Message)
    requires IsPlainTurn(u)
    ensures Keys([u]) == {}
  {
    assert [u][1..] == [];
    if u.content.Parts? {
      NoToolParts(u.content.parts, {});
    }
  }

  /** The tool ids of the earlier turns, stored either way, are those of their runs. */
  lemma {:induction false} TurnsIds(turns: seq<Turn>)
    requires forall t <- turns :: ValidTurn(t)
    ensures Keys(Stored(turns)) == Keys(Once(turns))
    ensures forall x <- ToolIds(Once(turns)) :: exists i :: 0 <= i < |turns| && x in ToolIds(Flatten(turns[i].steps))
  {
    hide Keys, ToolIds, IsPlainTurn, IsRun, Flatten, Snapshots;
    if turns == [] {
      NoMessageNoIds();
    } else {
      var before, last := turns[..|turns| - 1], turns[|turns| - 1];
      assert last in turns && ValidTurn(last) && forall t <- before :: t in turns;
      TurnsIds(before);
      SnapshotsLaws(last.steps);
      KeysAppend(Stored(before) + [last.inbound], Snapshots(last.steps));
      KeysAppend(Stored(before), [last.inbound]);
      KeysAppend(Once(before) + [last.inbound], Flatten(last.steps));
      KeysAppend(Once(before), [last.inbound]);
      forall x <- ToolIds(Once(turns)) ensures exists i :: 0 <= i < |turns| && x in ToolIds(Flatten(turns[i].steps)) {
        LastTurnIds(Once(before), last);
        if x in ToolIds(Once(before)) {
          var i :| 0 <= i < |before| && x in ToolIds(Flatten(before[i].steps));
          assert turns[i] == before[i];
        } else {
          assert turns[|turns| - 1] == last;
        }
      }
    }
  }

  lemma LastTurnIds(h: History, t: Turn)
    requires ValidTurn(t)
    ensures ToolIds(h + [t.inbound] + Flatten(t.steps)) == ToolIds(h) + ToolIds(Flatten(t.steps))
  {
    hide ToolIds, Flatten, IsPlainTurn;
    ToolIdsAppend(h + [t.inbound], Flatten(t.steps));
    ToolIdsAppend(h, [t.inbound]);
    PlainTurnIds(t.inbound);
    assert ToolIds([t.inbound]) == {} by { NoKeysNoIds([t.inbound]); }
  }

  lemma NoMessageNoIds()
    ensures ToolIds([]) == {}
  {
  }

  lemma NoKeysNoIds(h: History)
    requires Keys(h) == {}
    ensures ToolIds(h) == {}
  {
  }

  /**
   * A poisoned session of many turns recovers: with tool ids of its own in each run, sanitising
   * what was stored keeps the same tool calls and results, in the same order and grouping, as
   * sanitising the session with each run stored once.
   */
  lemma {:induction false} SessionRecovery(turns: seq<Turn>)
    requires (forall t <- turns :: ValidTurn(t)) && ApartTurns(turns)
    ensures Skeleton(Sanitize(Stored(turns))) == Skeleton(Sanitize(Once(turns)))
  {
    hide Keys, ToolIds, IsPlainTurn, IsRun, Flatten, Snapshots, Sanitize, Skeleton;
    if turns != [] {
      var before, last := turns[..|turns| - 1], turns[|turns| - 1];
      assert last in turns && ValidTurn(last) && forall t <- before :: t in turns;
      SessionRecovery(before);
      TurnsIds(before);
      SnapshotsLaws(last.steps);
      SameKeysSameIds(Stored(before), Once(before));
      SameKeysSameIds(Snapshots(last.steps), Flatten(last.steps));
      forall x <- ToolIds(Once(before)) ensures x !in ToolIds(Flatten(last.steps)) {
        var i :| 0 <= i < |before| && x in ToolIds(Flatten(before[i].steps));
        assert turns[i] == before[i] && turns[|turns| - 1] == last;
      }
      TurnLocality(Stored(before), last.inbound, Snapshots(last.steps));
      TurnLocality(Once(before), last.inbound, Flatten(last.steps));
      SnapshotRecovery(last.steps);
      SkeletonOfTurn(Sanitize(Stored(before)), last.inbound, Sanitize(Snapshots(last.steps)));
      SkeletonOfTurn(Sanitize(Once(before)), last.inbound, Sanitize(Flatten(last.steps)));
    }
  }

  lemma SkeletonOfTurn(a: History, u: Message, b: History)
    ensures Skeleton(a + [u] + b) == Skeleton(a) + Skeleton([u]) + Skeleton(b)
  {
    SkeletonAppend(a + [u], b);
    SkeletonAppend(a, [u]);
  }
}
