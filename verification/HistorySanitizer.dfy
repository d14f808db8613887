/**
 * The loops of the agent history sanitiser and of the last-resort scrub
 * (backend/src/agent/messages.ts), proved to compute the passes of `AgentHistory`.
 */
module HistorySanitizer {
  import opened AgentHistory
  import opened HistoryPlaces
  import opened Options
  import Sequences

  /** The source's two id sets hold exactly the ids of `seen`. */
  ghost predicate Tracks(seen: set<ToolKey>, calls: set<string>, results: set<string>) {
    forall x :: (ToolKey(ToolCall, x) in seen <==> x in calls) && (ToolKey(ToolResult, x) in seen <==> x in results)
  }

  ghost function KeySet(p: Part): set<ToolKey> {
    if KeyOf(p).Some? then {KeyOf(p).value} else {}
  }

  /** The filter callback of pass one: whether to keep a part, recording its id as seen. */
  method KeepPart(p: Part, calls: set<string>, results: set<string>, ghost seen: set<ToolKey>)
    returns (keep: bool, calls': set<string>, results': set<string>)
    requires Tracks(seen, calls, results)
    ensures keep <==> p.kind != Reasoning && KeySet(p) !! seen
    ensures Tracks(seen + KeySet(p), calls', results')
  {
    keep, calls', results' := true, calls, results;
    if p.kind == Reasoning {
      keep := false;
    } else if p.toolCallId.Some? && p.toolCallId.value != "" && p.kind == ToolCall {
      keep := p.toolCallId.value !in calls;
      calls' := calls + {p.toolCallId.value};
    } else if p.toolCallId.Some? && p.toolCallId.value != "" && p.kind == ToolResult {
      keep := p.toolCallId.value !in results;
      results' := results + {p.toolCallId.value};
    }
  }

  ghost function Kept(p: Part, seen: set<ToolKey>): seq<Part> {
    if p.kind != Reasoning && KeySet(p) !! seen then [p] else []
  }

  lemma FreshStep(ps: seq<Part>, n: nat, seen: set<ToolKey>, done: seq<Part>)
    requires n < |ps|
    ensures done + FreshParts(ps[n..], seen)
            == done + Kept(ps[n], seen) + FreshParts(ps[n + 1..], seen + KeySet(ps[n]))
    ensures seen + PartKeys(ps[n..]) == seen + KeySet(ps[n]) + PartKeys(ps[n + 1..])
  {
    var tail := FreshParts(ps[n + 1..], seen + KeySet(ps[n]));
    assert ps[n..][1..] == ps[n + 1..];
    assert KeyOf(ps[n]).None? || KeySet(ps[n]) <= seen ==> seen + KeySet(ps[n]) == seen;
    assert FreshParts(ps[n..], seen) == Kept(ps[n], seen) + tail;
    Sequences.Assoc(done, Kept(ps[n], seen), tail);
  }

  method FilterFresh(ps: seq<Part>, calls: set<string>, results: set<string>, ghost seen: set<ToolKey>)
    returns (parts: seq<Part>, calls': set<string>, results': set<string>)
    requires Tracks(seen, calls, results)
    ensures parts == FreshParts(ps, seen)
    ensures Tracks(seen + PartKeys(ps), calls', results')
  {
    parts, calls', results' := [], calls, results;
    ghost var now := seen;
    for n := 0 to |ps|
      invariant Tracks(now, calls', results')
      invariant parts + FreshParts(ps[n..], now) == FreshParts(ps, seen)
      invariant now + PartKeys(ps[n..]) == seen + PartKeys(ps)
    {
      var keep;
      keep, calls', results' := KeepPart(ps[n], calls', results', now);
      FreshStep(ps, n, now, parts);
      parts := parts + (if keep then [ps[n]] else []);
      now := now + KeySet(ps[n]);
    }
    assert now == seen + PartKeys(ps);
  }

  lemma DedupStep(h: History, n: nat, seen: set<ToolKey>, one: History)
    requires n < |h|
    requires one == Dedup([h[n]], seen)
    ensures Dedup(h[n..], seen) == one + Dedup(h[n + 1..], seen + Keys([h[n]]))
  {
    assert h[n..] == [h[n]] + h[n + 1..];
    DedupAppend([h[n]], h[n + 1..], seen);
  }

  method DedupeToolParts(messages: History) returns (deduped: History)
    ensures deduped == Dedup(messages, {})
    ensures exists at :: FreshPlaces(messages, deduped, at)
  {
    ghost var at := DedupExactly(messages);
    deduped := [];
    var calls: set<string>, results: set<string> := {}, {};
    ghost var seen: set<ToolKey> := {};
    for n := 0 to |messages|
      invariant Tracks(seen, calls, results)
      invariant deduped + Dedup(messages[n..], seen) == Dedup(messages, {})
    {
      var one, calls', results' := DedupeMessage(messages[n], calls, results, seen);
      DedupStep(messages, n, seen, one);
      Sequences.Assoc(deduped, one, Dedup(messages[n + 1..], seen + Keys([messages[n]])));
      deduped := deduped + one;
      calls, results := calls', results';
      seen := seen + Keys([messages[n]]);
    }
  }

  /** One turn of the first loop: the message with its fresh parts, or nothing. */
  method DedupeMessage(message: Message, calls: set<string>, results: set<string>, ghost seen: set<ToolKey>)
    returns (one: History, calls': set<string>, results': set<string>)
    requires Tracks(seen, calls, results)
    ensures one == Dedup([message], seen)
    ensures message.content.Plain? ==> one == [message]
    ensures one != [] ==> |one| == 1 && one[0].role == message.role
    ensures Tracks(seen + Keys([message]), calls', results')
  {
    assert [message][1..] == [];
    if message.content.Plain? {
      assert seen + Keys([message]) == seen;
      return [message], calls, results;
    }
    var parts;
    parts, calls', results' := FilterFresh(message.content.parts, calls, results, seen);
    assert Keys([message]) == PartKeys(message.content.parts);
    one := if parts == [] then [] else [message.(content := Parts(parts))];
  }

  /** Whether the calls of the assistant message `i` are left unresolved by what follows it. */
  method IsOrphaned(messages: History, i: nat) returns (orphaned: bool)
    requires i < |messages| && messages[i].role == Assistant && messages[i].content.Parts?
    ensures orphaned <==> Unanswered(messages, i)
  {
    var unresolved := IdsOf(messages[i].content.parts, ToolCall);
    ghost var missing := CallIds(messages[i]) - WindowIds(messages[i + 1..]);
    var j := i + 1;
    while j < |messages| && unresolved != {}
      invariant i < j <= |messages|
      invariant unresolved - WindowIds(messages[j..]) == missing
    {
      var next := messages[j];
      assert messages[j..][1..] == messages[j + 1..];
      if IsBoundary(next) {
        assert unresolved == missing;
        break;
      }
      if next.role == Tool && next.content.Parts? {
        unresolved := unresolved - (IdsOf(next.content.parts, ToolResult) - {""});
      }
      j := j + 1;
    }
    orphaned := unresolved != {};
    assert orphaned <==> missing != {};
  }

  /** The assistant message `k` has a call that its window does not resolve. */
  ghost predicate Unanswered(messages: History, k: nat)
    requires k < |messages|
  {
    !(CallIds(messages[k]) <= WindowIds(messages[k + 1..]))
  }

  lemma OnlyCallersUnanswered(messages: History, k: nat)
    requires k < |messages| && (messages[k].role != Assistant || messages[k].content.Plain?)
    ensures !Unanswered(messages, k)
  {
  }

  lemma PruneNext(messages: History, k: nat)
    requires k < |messages|
    ensures Prune(messages[k..]) == (if Unanswered(messages, k) then [] else [messages[k]]) + Prune(messages[k + 1..])
  {
    hide CallIds, WindowIds;
    assert messages[k..][1..] == messages[k + 1..];
  }

  method PruneOrphanedToolCalls(messages: History) returns (kept: History)
    ensures kept == Prune(messages)
  {
    hide Prune, Unanswered;
    var toRemove: set<nat> := {};
    for i := 0 to |messages|
      invariant forall k: nat | k < |messages| :: k in toRemove <==> k < i && Unanswered(messages, k)
    {
      if messages[i].role == Assistant && messages[i].content.Parts? {
        var orphaned := IsOrphaned(messages, i);
        if orphaned {
          toRemove := toRemove + {i};
        }
      } else {
        OnlyCallersUnanswered(messages, i);
      }
    }
    kept := [];
    Unfold([]);
    for i := 0 to |messages|
      invariant kept + Prune(messages[i..]) == Prune(messages)
    {
      PruneNext(messages, i);
      Sequences.Assoc(kept, if i in toRemove then [] else [messages[i]], Prune(messages[i + 1..]));
      if i !in toRemove {
        kept := kept + [messages[i]];
      }
    }
    assert messages[|messages|..] == [];
  }

  method SurvivingCallIds(pruned: History) returns (surviving: set<string>)
    ensures surviving == Surviving(pruned)
  {
    surviving := {};
    for n := 0 to |pruned|
      invariant surviving + Surviving(pruned[n..]) == Surviving(pruned)
    {
      assert pruned[n..][1..] == pruned[n + 1..];
      if pruned[n].role == Assistant && pruned[n].content.Parts? {
        surviving := surviving + IdsOf(pruned[n].content.parts, ToolCall);
      }
    }
  }

  method DropUncalledResults(pruned: History, surviving: set<string>) returns (cleaned: History)
    ensures cleaned == Clean(pruned, surviving)
  {
    hide KnownParts, Clean;
    cleaned := [];
    CleanSingle([], surviving);
    for n := 0 to |pruned|
      invariant cleaned + Clean(pruned[n..], surviving) == Clean(pruned, surviving)
    {
      var message := pruned[n];
      assert pruned[n..] == [message] + pruned[n + 1..];
      CleanAppend([message], pruned[n + 1..], surviving);
      CleanSingle([message], surviving);
      Sequences.Assoc(cleaned, Clean([message], surviving), Clean(pruned[n + 1..], surviving));
      if message.role != Tool || message.content.Plain? {
        cleaned := cleaned + [message];
      } else {
        var parts := KnownParts(message.content.parts, surviving);
        if parts != [] {
          cleaned := cleaned + [message.(content := Parts(parts))];
        }
      }
    }
  }

  method SanitizeAgentHistory(messages: History) returns (cleaned: History)
    ensures cleaned == Sanitize(messages)
    ensures WellFormed(cleaned)
    ensures exists at :: Places(messages, cleaned, at)
  {
    hide Places;
    ghost var at := SanitizeExactly(messages);
    var deduped := DedupeToolParts(messages);
    var pruned := PruneOrphanedToolCalls(deduped);
    var surviving := SurvivingCallIds(pruned);
    cleaned := DropUncalledResults(pruned, surviving);
    SanitizeWellFormed(messages);
  }

  method ScrubParts(ps: seq<Part>) returns (parts: seq<Part>)
    ensures parts == StripParts(ps)
  {
    parts := [];
    for k := 0 to |ps|
      invariant parts + StripParts(ps[k..]) == StripParts(ps)
    {
      assert ps[k..][1..] == ps[k + 1..];
      if Replayable(ps[k]) {
        parts := parts + [ps[k].(providerOptions := None)];
      }
    }
  }

  method StripVolatileHistoryParts(messages: History) returns (cleaned: History)
    ensures cleaned == Strip(messages)
    ensures NoJunk(cleaned)
    ensures exists at :: ScrubbedPlaces(messages, cleaned, at)
  {
    hide Strip, StripParts, NoJunk, ScrubbedPlaces;
    ghost var at := StripExactly(messages);
    cleaned := [];
    StripNone();
    for n := 0 to |messages|
      invariant cleaned == Strip(messages[..n])
    {
      var message := messages[n];
      assert messages[..n + 1] == messages[..n] + [message];
      StripAppend(messages[..n], [message]);
      StripSingle(message);
      if message.content.Plain? {
        cleaned := cleaned + [message];
      } else {
        var parts := ScrubParts(message.content.parts);
        if parts != [] {
          cleaned := cleaned + [message.(content := Parts(parts))];
        }
      }
    }
    assert messages[..|messages|] == messages;
    StripIsClean(messages);
  }
}
