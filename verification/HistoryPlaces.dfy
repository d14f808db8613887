/**
 * What the sanitiser of `AgentHistory` keeps, place by place. The predicates here look only at
 * positions of the input: which part or call occurs where, and what stands between.
 */
module HistoryPlaces {
  import opened AgentHistory
  import opened Options
  import opened Sequences

  // ---------------------------------------------------------------------------
  // What is kept
  // ---------------------------------------------------------------------------

  function PartsOf(m: Message): seq<Part> {
    if m.content.Parts? then m.content.parts else []
  }

  /** The key `k` occurs in a message before `i`, or in message `i` before its part `p`. */
  ghost predicate Earlier(h: History, i: nat, p: nat, k: ToolKey)
    requires i < |h| && p <= |PartsOf(h[i])|
  {
    || (exists j, q | 0 <= j < i && 0 <= q < |PartsOf(h[j])| :: KeyOf(PartsOf(h[j])[q]) == Some(k))
    || (exists q | 0 <= q < p :: KeyOf(PartsOf(h[i])[q]) == Some(k))
  }

  /** No reasoning, and no later copy of a call or result. */
  ghost predicate Fresh(h: History, i: nat, p: nat)
    requires i < |h| && p < |PartsOf(h[i])|
  {
    var part := PartsOf(h[i])[p];
    part.kind != Reasoning && (KeyOf(part).Some? ==> !Earlier(h, i, p, KeyOf(part).value))
  }

  /** Message `i` has a fresh part of this kind with the string id `x`. */
  ghost predicate HasFresh(h: History, i: nat, kind: PartType, x: string)
    requires i < |h|
  {
    exists p | 0 <= p < |PartsOf(h[i])| :: Fresh(h, i, p) && Carries(PartsOf(h[i])[p], kind, x)
  }

  predicate Carries(part: Part, kind: PartType, x: string) {
    part.kind == kind && part.toolCallId == Some(x)
  }

  ghost predicate HasCall(h: History, i: nat, x: string)
    requires i < |h|
  {
    h[i].role == Assistant && HasFresh(h, i, ToolCall, x)
  }

  ghost predicate HasResult(h: History, i: nat, x: string)
    requires i < |h|
  {
    h[i].role == Tool && HasFresh(h, i, ToolResult, x)
  }

  ghost predicate HasSomeFresh(h: History, i: nat)
    requires i < |h|
  {
    exists p | 0 <= p < |PartsOf(h[i])| :: Fresh(h, i, p)
  }

  /** A user or system message that pass one does not empty. */
  ghost predicate Parting(h: History, i: nat)
    requires i < |h|
  {
    (h[i].role == User || h[i].role == System) && (h[i].content.Plain? || HasSomeFresh(h, i))
  }

  /** From place `n` on, a tool message with this result comes before any parting message. */
  ghost predicate AnsweredFrom(h: History, n: nat, x: string)
    requires n <= |h|
  {
    x != "" && exists j | n <= j < |h| && HasResult(h, j, x) :: forall b | n <= b < j :: !Parting(h, b)
  }

  /** Every call of message `i` is answered after it, in the same turn. */
  ghost predicate Resolved(h: History, i: nat)
    requires i < |h|
  {
    forall x | HasCall(h, i, x) :: AnsweredFrom(h, i + 1, x)
  }

  ghost predicate Survives(h: History, x: string) {
    exists i | 0 <= i < |h| :: HasCall(h, i, x) && Resolved(h, i)
  }

  ghost predicate KeptPart(h: History, i: nat, p: nat)
    requires i < |h| && p < |PartsOf(h[i])|
  {
    var part := PartsOf(h[i])[p];
    && Fresh(h, i, p)
    && (h[i].role == Tool && part.kind == ToolResult && part.toolCallId.Some? ==> Survives(h, part.toolCallId.value))
  }

  /** Of the first `n` parts of message `i` those that are kept, in order and unchanged. */
  ghost function KeptOf(h: History, i: nat, n: nat): seq<Part>
    requires i < |h| && n <= |PartsOf(h[i])|
  {
    if n == 0 then []
    else KeptOf(h, i, n - 1) + if KeptPart(h, i, n - 1) then [PartsOf(h[i])[n - 1]] else []
  }

  /** A message is missing only when it is an orphaned assistant message or nothing of it is kept. */
  ghost predicate KeptMessage(h: History, i: nat)
    requires i < |h|
  {
    h[i].content.Plain? || (Resolved(h, i) && exists p | 0 <= p < |PartsOf(h[i])| :: KeptPart(h, i, p))
  }

  /**
   * `out` holds, at increasing places `at` of `h`, exactly the kept messages, each with its role,
   * its content unchanged when plain, and otherwise with exactly its kept parts.
   */
  ghost predicate Places(h: History, out: History, at: seq<nat>) {
    && |at| == |out|
    && Increasing(at)
    && (forall i | 0 <= i < |at| :: at[i] < |h| && KeptMessage(h, at[i]) && Retained(h, at[i], out[i]))
    && (forall j | 0 <= j < |h| && KeptMessage(h, j) :: j in at)
  }

  /** `m` is message `i` with exactly its kept parts. */
  ghost predicate Retained(h: History, i: nat, m: Message)
    requires i < |h|
  {
    && m.role == h[i].role
    && m.content == if h[i].content.Plain? then h[i].content else Parts(KeptOf(h, i, |PartsOf(h[i])|))
  }

  // ---------------------------------------------------------------------------
  // Keys and ids
  // ---------------------------------------------------------------------------

  lemma {:induction false} PartKeysMeaning(ps: seq<Part>, k: ToolKey)
    ensures k in PartKeys(ps) <==> exists q | 0 <= q < |ps| :: KeyOf(ps[q]) == Some(k)
  {
    if ps != [] {
      PartKeysMeaning(ps[1..], k);
      if k in PartKeys(ps) && KeyOf(ps[0]) != Some(k) {
        var q :| 0 <= q < |ps[1..]| && KeyOf(ps[1..][q]) == Some(k);
        assert ps[q + 1] == ps[1..][q];
      }
      if q :| 0 < q < |ps| && KeyOf(ps[q]) == Some(k) {
        assert ps[1..][q - 1] == ps[q];
      }
    }
  }

  lemma MessageKeys(m: Message)
    ensures Keys([m]) == PartKeys(PartsOf(m))
  {
    assert [m][1..] == [];
  }

  lemma {:induction false} KeysMeaning(h: History, n: nat, k: ToolKey)
    requires n <= |h|
    ensures k in Keys(h[..n]) <==> exists j, q | 0 <= j < n && 0 <= q < |PartsOf(h[j])| :: KeyOf(PartsOf(h[j])[q]) == Some(k)
  {
    hide PartKeys, Keys, KeyOf;
    if n == 0 {
      NoKeys();
    } else {
      KeysMeaning(h, n - 1, k);
      KeysNext(h, n - 1);
      PartKeysMeaning(PartsOf(h[n - 1]), k);
    }
  }

  lemma NoKeys()
    ensures Keys([]) == {} && PartKeys([]) == {}
  {
  }

  lemma KeysNext(h: History, n: nat)
    requires n < |h|
    ensures Keys(h[..n + 1]) == Keys(h[..n]) + PartKeys(PartsOf(h[n]))
  {
    hide Keys;
    assert h[..n + 1] == h[..n] + [h[n]];
    KeysAppend(h[..n], [h[n]]);
    MessageKeys(h[n]);
  }

  lemma EarlierIsSeen(h: History, i: nat, p: nat, k: ToolKey)
    requires i < |h| && p <= |PartsOf(h[i])|
    ensures Earlier(h, i, p, k) <==> k in Keys(h[..i]) + PartKeys(PartsOf(h[i])[..p])
  {
    hide Keys, PartKeys, KeyOf;
    var ps := PartsOf(h[i]);
    KeysMeaning(h, i, k);
    PartKeysMeaning(ps[..p], k);
    assert forall q | 0 <= q < p :: ps[..p][q] == ps[q];
  }

  lemma {:induction false} IdsMeaning(ps: seq<Part>, kind: PartType, x: string)
    ensures x in IdsOf(ps, kind) <==> exists part <- ps :: Carries(part, kind, x)
  {
    if ps != [] {
      IdsMeaning(ps[1..], kind, x);
      assert forall part :: part in ps <==> part == ps[0] || part in ps[1..];
      assert x in IdsOf(ps, kind) <==> Carries(ps[0], kind, x) || x in IdsOf(ps[1..], kind);
    }
  }

  // ---------------------------------------------------------------------------
  // Pass one, place by place
  // ---------------------------------------------------------------------------

  ghost function FreshOf(h: History, i: nat, n: nat): seq<Part>
    requires i < |h| && n <= |PartsOf(h[i])|
  {
    if n == 0 then []
    else FreshOf(h, i, n - 1) + if Fresh(h, i, n - 1) then [PartsOf(h[i])[n - 1]] else []
  }

  lemma FreshNext(ps: seq<Part>, seen: set<ToolKey>)
    requires ps != []
    ensures FreshParts(ps, seen) == FreshParts(ps[..1], seen) + FreshParts(ps[1..], seen + PartKeys(ps[..1]))
    ensures PartKeys(ps) == PartKeys(ps[..1]) + PartKeys(ps[1..])
  {
    SinglePart(ps[0], seen);
    assert ps[..1] == [ps[0]];
    if KeyOf(ps[0]).None? || KeyOf(ps[0]).value in seen {
      assert seen + PartKeys(ps[..1]) == seen;
    }
  }

  lemma {:induction false} FreshPartsAppend(a: seq<Part>, b: seq<Part>, seen: set<ToolKey>)
    ensures FreshParts(a + b, seen) == FreshParts(a, seen) + FreshParts(b, seen + PartKeys(a))
  {
    hide FreshParts, PartKeys;
    if a == [] {
      NoFreshParts(seen);
      assert a + b == b && seen + PartKeys(a) == seen;
    } else {
      var one := PartKeys(a[..1]);
      assert (a + b)[..1] == a[..1] && (a + b)[1..] == a[1..] + b;
      FreshNext(a + b, seen);
      FreshNext(a, seen);
      FreshPartsAppend(a[1..], b, seen + one);
      assert seen + one + PartKeys(a[1..]) == seen + PartKeys(a);
    }
  }

  lemma {:induction false} FreshPartsArePlaces(h: History, i: nat, n: nat)
    requires i < |h| && n <= |PartsOf(h[i])|
    ensures FreshParts(PartsOf(h[i])[..n], Keys(h[..i])) == FreshOf(h, i, n)
  {
    hide Keys, PartKeys, KeyOf, FreshParts, Earlier;
    var ps, seen := PartsOf(h[i]), Keys(h[..i]);
    if n == 0 {
      NoFreshParts(seen);
    } else {
      FreshPartsArePlaces(h, i, n - 1);
      assert ps[..n] == ps[..n - 1] + [ps[n - 1]];
      FreshPartsAppend(ps[..n - 1], [ps[n - 1]], seen);
      SinglePart(ps[n - 1], seen + PartKeys(ps[..n - 1]));
      if KeyOf(ps[n - 1]).Some? {
        EarlierIsSeen(h, i, n - 1, KeyOf(ps[n - 1]).value);
      }
    }
  }

  lemma NoFreshParts(seen: set<ToolKey>)
    ensures FreshParts([], seen) == [] && PartKeys([]) == {}
  {
  }

  lemma {:induction false} FreshOfHolds(h: History, i: nat, n: nat, part: Part)
    requires i < |h| && n <= |PartsOf(h[i])|
    ensures part in FreshOf(h, i, n) <==> exists p | 0 <= p < n :: Fresh(h, i, p) && PartsOf(h[i])[p] == part
  {
    hide Fresh;
    if n > 0 {
      FreshOfHolds(h, i, n - 1, part);
    }
  }

  lemma {:induction false} FreshOfEmpty(h: History, i: nat, n: nat)
    requires i < |h| && n <= |PartsOf(h[i])|
    ensures FreshOf(h, i, n) == [] <==> forall p | 0 <= p < n :: !Fresh(h, i, p)
  {
    hide Fresh;
    if n > 0 {
      FreshOfEmpty(h, i, n - 1);
    }
  }

  lemma FreshIds(h: History, i: nat, kind: PartType, x: string)
    requires i < |h|
    ensures x in IdsOf(FreshOf(h, i, |PartsOf(h[i])|), kind) <==> HasFresh(h, i, kind, x)
  {
    hide Fresh, FreshOf, IdsOf;
    var n := |PartsOf(h[i])|;
    var ps := FreshOf(h, i, n);
    IdsMeaning(ps, kind, x);
    if part :| part in ps && Carries(part, kind, x) {
      FreshOfHolds(h, i, n, part);
    }
    if p :| 0 <= p < n && Fresh(h, i, p) && Carries(PartsOf(h[i])[p], kind, x) {
      FreshOfHolds(h, i, n, PartsOf(h[i])[p]);
    }
  }

  /** What pass one makes of message `i`. */
  ghost function One(h: History, i: nat): History
    requires i < |h|
  {
    if h[i].content.Plain? then [h[i]]
    else if !HasSomeFresh(h, i) then []
    else [h[i].(content := Parts(FreshOf(h, i, |PartsOf(h[i])|)))]
  }

  /** What pass one makes of the messages from `i` on. */
  ghost function Rest(h: History, i: nat): History
    requires i <= |h|
  {
    Dedup(h[i..], Keys(h[..i]))
  }

  lemma DedupOne(h: History, i: nat)
    requires i < |h|
    ensures Dedup([h[i]], Keys(h[..i])) == One(h, i)
  {
    hide Keys, FreshParts, FreshOf, Fresh;
    var ps := PartsOf(h[i]);
    assert [h[i]][1..] == [] && ps[..|ps|] == ps;
    FreshPartsArePlaces(h, i, |ps|);
    FreshOfEmpty(h, i, |ps|);
  }

  lemma RestStep(h: History, i: nat)
    requires i < |h|
    ensures Rest(h, i) == One(h, i) + Rest(h, i + 1)
  {
    hide Keys, Dedup, One;
    assert h[i..] == [h[i]] + h[i + 1..];
    DedupAppend([h[i]], h[i + 1..], Keys(h[..i]));
    DedupOne(h, i);
    MessageKeys(h[i]);
    KeysNext(h, i);
  }

  lemma RestEnds(h: History)
    ensures Rest(h, |h|) == []
  {
  }

  /** The ids of what pass one leaves of a message. */
  lemma OneIds(h: History, i: nat, x: string)
    requires i < |h|
    ensures One(h, i) == [] ==> !HasCall(h, i, x) && !HasResult(h, i, x) && !Parting(h, i)
    ensures One(h, i) != [] ==>
              var m := One(h, i)[0];
              && (x in CallIds(m) <==> HasCall(h, i, x)) && (x in ResultIds(m) <==> HasResult(h, i, x))
              && (IsBoundary(m) <==> Parting(h, i)) && m.role == h[i].role
  {
    hide Fresh, FreshOf, IdsOf;
    FreshIds(h, i, ToolCall, x);
    FreshIds(h, i, ToolResult, x);
  }

  ghost predicate LeftByOne(h: History, i: nat)
    requires i < |h|
  {
    h[i].content.Plain? || HasSomeFresh(h, i)
  }

  /**
   * `out` holds, at increasing places `at` of `h`, exactly the messages that are plain or have a
   * fresh part, each with its role, its content unchanged when plain, and otherwise its fresh parts.
   */
  ghost predicate FreshPlaces(h: History, out: History, at: seq<nat>) {
    && |at| == |out|
    && Increasing(at)
    && (forall i | 0 <= i < |at| ::
          && at[i] < |h| && LeftByOne(h, at[i])
          && out[i].role == h[at[i]].role
          && out[i].content
             == if h[at[i]].content.Plain? then h[at[i]].content
                else Parts(FreshOf(h, at[i], |PartsOf(h[at[i]])|)))
    && (forall j | 0 <= j < |h| && LeftByOne(h, j) :: j in at)
  }

  ghost function Left(h: History): nat -> bool {
    (j: nat) => j < |h| && LeftByOne(h, j)
  }

  lemma {:induction false} RestPlaced(h: History, n: nat)
    requires n <= |h|
    ensures var at, out := Picks(n, |h|, Left(h)), Rest(h, n);
            |out| == |at| && forall i | 0 <= i < |at| :: at[i] < |h| && One(h, at[i]) == [out[i]]
    decreases |h| - n
  {
    hide Rest, Fresh, FreshOf;
    PicksLaws(n, |h|, Left(h));
    if n == |h| {
      RestEnds(h);
    } else {
      RestPlaced(h, n + 1);
      RestStep(h, n);
      PicksLaws(n + 1, |h|, Left(h));
      assert Left(h)(n) <==> One(h, n) != [];
    }
  }

  /** Pass one, place by place. */
  lemma DedupExactly(h: History) returns (at: seq<nat>)
    ensures FreshPlaces(h, Dedup(h, {}), at)
  {
    hide Dedup, LeftByOne, FreshOf, Keys;
    assert h[0..] == h && h[..0] == [];
    NoKeys();
    RestPlaced(h, 0);
    PicksLaws(0, |h|, Left(h));
    at := Picks(0, |h|, Left(h));
    var out := Dedup(h, {});
    forall i | 0 <= i < |at| ensures LeftByOne(h, at[i]) && One(h, at[i]) == [out[i]] {
      assert Left(h)(at[i]);
    }
    forall j | 0 <= j < |h| && LeftByOne(h, j) ensures j in at {
      assert Left(h)(j);
    }
  }

  // ---------------------------------------------------------------------------
  // Pass two, place by place
  // ---------------------------------------------------------------------------

  lemma AnsweredStep(h: History, n: nat, x: string)
    requires n < |h|
    ensures AnsweredFrom(h, n, x)
            <==> x != "" && (HasResult(h, n, x) || (!Parting(h, n) && AnsweredFrom(h, n + 1, x)))
  {
    hide HasFresh, HasSomeFresh;
    if AnsweredFrom(h, n, x) {
      var j :| n <= j < |h| && HasResult(h, j, x) && forall b | n <= b < j :: !Parting(h, b);
      assert j > n ==> !Parting(h, n) && AnsweredFrom(h, n + 1, x);
    }
    if x != "" && !Parting(h, n) && AnsweredFrom(h, n + 1, x) {
      var j :| n + 1 <= j < |h| && HasResult(h, j, x) && forall b | n + 1 <= b < j :: !Parting(h, b);
      assert forall b | n <= b < j :: !Parting(h, b);
    }
  }

  lemma {:induction false} WindowIsPlaces(h: History, i: nat, x: string)
    requires i <= |h|
    ensures x in WindowIds(Rest(h, i)) <==> AnsweredFrom(h, i, x)
    decreases |h| - i
  {
    hide Rest, One, HasCall, HasResult, Parting, CallIds, ResultIds, WindowIds, IsBoundary, Prune;
    if i == |h| {
      RestEnds(h);
      Unfold([]);
    } else {
      WindowIsPlaces(h, i + 1, x);
      RestStep(h, i);
      OneIds(h, i, x);
      OneIsShort(h, i);
      AnsweredStep(h, i, x);
      if One(h, i) != [] {
        assert Rest(h, i)[0] == One(h, i)[0] && Rest(h, i)[1..] == Rest(h, i + 1);
        Unfold(Rest(h, i));
        ResultNoParting(h, i, x);
      } else {
        assert Rest(h, i) == Rest(h, i + 1);
      }
    }
  }

  lemma OneIsShort(h: History, i: nat)
    requires i < |h|
    ensures |One(h, i)| <= 1
  {
  }

  lemma ResultNoParting(h: History, i: nat, x: string)
    requires i < |h|
    ensures HasResult(h, i, x) ==> !Parting(h, i)
  {
  }

  lemma VerdictIsPlaces(h: History, i: nat)
    requires i < |h| && One(h, i) != []
    ensures CallIds(One(h, i)[0]) <= WindowIds(Rest(h, i + 1)) <==> Resolved(h, i)
  {
    hide Rest, One, HasCall, HasResult, Parting, CallIds, ResultIds, WindowIds, AnsweredFrom;
    forall x ensures x in CallIds(One(h, i)[0]) <==> HasCall(h, i, x)
      ensures x in WindowIds(Rest(h, i + 1)) <==> AnsweredFrom(h, i + 1, x)
    {
      OneIds(h, i, x);
      WindowIsPlaces(h, i + 1, x);
    }
  }

  /** What the first two passes make of message `i`. */
  ghost function Two(h: History, i: nat): History
    requires i < |h|
  {
    if Resolved(h, i) then One(h, i) else []
  }

  lemma PruneStep(h: History, i: nat)
    requires i < |h|
    ensures Prune(Rest(h, i)) == Two(h, i) + Prune(Rest(h, i + 1))
  {
    hide Rest, One, Resolved, CallIds, WindowIds, Prune;
    RestStep(h, i);
    OneIsShort(h, i);
    if One(h, i) == [] {
      assert Rest(h, i) == Rest(h, i + 1);
      assert Two(h, i) + Prune(Rest(h, i + 1)) == Prune(Rest(h, i + 1));
    } else {
      VerdictIsPlaces(h, i);
      assert Rest(h, i)[0] == One(h, i)[0] && Rest(h, i)[1..] == Rest(h, i + 1);
      assert One(h, i) == [One(h, i)[0]];
      Unfold(Rest(h, i));
    }
  }

  ghost predicate SurvivesFrom(h: History, n: nat, x: string) {
    exists i | n <= i < |h| :: HasCall(h, i, x) && Resolved(h, i)
  }

  lemma {:induction false} SurvivingIsPlaces(h: History, i: nat, x: string)
    requires i <= |h|
    ensures x in Surviving(Prune(Rest(h, i))) <==> SurvivesFrom(h, i, x)
    decreases |h| - i
  {
    hide Rest, One, HasCall, Resolved, CallIds, Prune, Surviving;
    if i == |h| {
      RestEnds(h);
      Unfold([]);
      NoneSurvive();
    } else {
      SurvivingIsPlaces(h, i + 1, x);
      PruneStep(h, i);
      OneIsShort(h, i);
      SurvivingAppend(Two(h, i), Prune(Rest(h, i + 1)));
      OneIds(h, i, x);
      NoneSurvive();
      if Two(h, i) != [] {
        SurvivingOne(Two(h, i)[0]);
        assert Two(h, i) == [Two(h, i)[0]];
      }
      assert SurvivesFrom(h, i, x) <==> (HasCall(h, i, x) && Resolved(h, i)) || SurvivesFrom(h, i + 1, x);
    }
  }

  lemma NoneSurvive()
    ensures Surviving([]) == {}
  {
  }

  lemma SurvivingOne(m: Message)
    ensures Surviving([m]) == CallIds(m)
  {
    assert [m][1..] == [];
  }

  // ---------------------------------------------------------------------------
  // Pass three, place by place
  // ---------------------------------------------------------------------------

  lemma {:induction false} KnownPartsAppend(a: seq<Part>, b: seq<Part>, ids: set<string>)
    ensures KnownParts(a + b, ids) == KnownParts(a, ids) + KnownParts(b, ids)
  {
    if a == [] {
      assert a + b == b;
    } else {
      assert (a + b)[1..] == a[1..] + b;
      KnownPartsAppend(a[1..], b, ids);
    }
  }

  lemma KnownOne(p: Part, ids: set<string>)
    ensures KnownParts([p], ids)
            == if p.kind == ToolResult && p.toolCallId.Some? && p.toolCallId.value !in ids then [] else [p]
    ensures KnownParts([], ids) == []
  {
    assert [p][1..] == [];
  }

  ghost predicate HoldsSurvivors(h: History, ids: set<string>) {
    forall x :: x in ids <==> Survives(h, x)
  }

  lemma {:induction false} KnownIsKept(h: History, i: nat, n: nat, ids: set<string>)
    requires i < |h| && n <= |PartsOf(h[i])| && HoldsSurvivors(h, ids)
    ensures (if h[i].role == Tool then KnownParts(FreshOf(h, i, n), ids) else FreshOf(h, i, n)) == KeptOf(h, i, n)
  {
    hide Fresh, Survives, KnownParts;
    if n == 0 {
      KnownOne(Part(Text, None, "", None), ids);
    } else {
      var part := PartsOf(h[i])[n - 1];
      KnownIsKept(h, i, n - 1, ids);
      KnownOne(part, ids);
      if Fresh(h, i, n - 1) {
        KnownPartsAppend(FreshOf(h, i, n - 1), [part], ids);
      } else {
        assert FreshOf(h, i, n) == FreshOf(h, i, n - 1) && KeptOf(h, i, n) == KeptOf(h, i, n - 1);
      }
    }
  }

  lemma {:induction false} KeptOfEmpty(h: History, i: nat, n: nat)
    requires i < |h| && n <= |PartsOf(h[i])|
    ensures KeptOf(h, i, n) == [] <==> forall p | 0 <= p < n :: !KeptPart(h, i, p)
  {
    hide KeptPart;
    if n > 0 {
      KeptOfEmpty(h, i, n - 1);
    }
  }

  /** What all three passes make of message `i`. */
  ghost function Three(h: History, i: nat): History
    requires i < |h|
  {
    if !KeptMessage(h, i) then []
    else if h[i].content.Plain? then [h[i]]
    else [h[i].(content := Parts(KeptOf(h, i, |PartsOf(h[i])|)))]
  }

  lemma PlainIsResolved(h: History, i: nat)
    requires i < |h| && h[i].content.Plain?
    ensures Resolved(h, i)
  {
  }

  lemma CleanPlace(h: History, i: nat, ids: set<string>)
    requires i < |h| && HoldsSurvivors(h, ids)
    ensures Clean(Two(h, i), ids) == Three(h, i)
  {
    hide Fresh, FreshOf, KeptOf, KeptPart, Resolved, KnownParts, Clean, HoldsSurvivors;
    var n := |PartsOf(h[i])|;
    CleanSingle(Two(h, i), ids);
    KeptOfEmpty(h, i, n);
    FreshOfEmpty(h, i, n);
    KnownIsKept(h, i, n, ids);
    if h[i].content.Plain? {
      PlainIsResolved(h, i);
    } else if !HasSomeFresh(h, i) {
      NothingFreshNothingKept(h, i);
    }
  }

  lemma NothingFreshNothingKept(h: History, i: nat)
    requires i < |h| && !HasSomeFresh(h, i)
    ensures forall p | 0 <= p < |PartsOf(h[i])| :: !KeptPart(h, i, p)
  {
    hide Fresh;
  }

  ghost function AllThree(h: History, i: nat): History
    requires i <= |h|
    decreases |h| - i
  {
    if i == |h| then [] else Three(h, i) + AllThree(h, i + 1)
  }

  lemma {:induction false} CleanIsPlaces(h: History, i: nat, ids: set<string>)
    requires i <= |h| && HoldsSurvivors(h, ids)
    ensures Clean(Prune(Rest(h, i)), ids) == AllThree(h, i)
    decreases |h| - i
  {
    hide Rest, Two, Three, Prune, Clean, HoldsSurvivors;
    if i == |h| {
      RestEnds(h);
      Unfold([]);
      CleanSingle([], ids);
    } else {
      CleanIsPlaces(h, i + 1, ids);
      PruneStep(h, i);
      CleanAppend(Two(h, i), Prune(Rest(h, i + 1)), ids);
      CleanPlace(h, i, ids);
    }
  }

  lemma SanitizeIsPlaces(h: History)
    ensures Sanitize(h) == AllThree(h, 0)
  {
    hide Dedup, Keys, Prune, Clean, Surviving, HasCall, Resolved;
    assert h[0..] == h && h[..0] == [];
    NoKeys();
    assert Rest(h, 0) == Dedup(h, {});
    var ids := Surviving(Prune(Rest(h, 0)));
    forall x ensures x in ids <==> Survives(h, x) {
      SurvivingIsPlaces(h, 0, x);
    }
    CleanIsPlaces(h, 0, ids);
  }

  ghost function Kept(h: History): nat -> bool {
    (j: nat) => j < |h| && KeptMessage(h, j)
  }

  lemma {:induction false} AllThreePlaced(h: History, n: nat)
    requires n <= |h|
    ensures var at, out := Picks(n, |h|, Kept(h)), AllThree(h, n);
            |out| == |at| && forall i | 0 <= i < |at| :: at[i] < |h| && Retained(h, at[i], out[i])
    decreases |h| - n
  {
    hide KeptMessage, KeptOf;
    PicksLaws(n, |h|, Kept(h));
    if n < |h| {
      AllThreePlaced(h, n + 1);
      PicksLaws(n + 1, |h|, Kept(h));
    }
  }

  /**
   * The sanitiser, place by place: at increasing places exactly the kept messages, with their roles,
   * plain content unchanged, and of the others exactly the kept parts in order.
   */
  lemma SanitizeExactly(h: History) returns (at: seq<nat>)
    ensures Places(h, Sanitize(h), at)
  {
    hide KeptMessage, Retained, Sanitize;
    SanitizeIsPlaces(h);
    AllThreePlaced(h, 0);
    PicksLaws(0, |h|, Kept(h));
    at := Picks(0, |h|, Kept(h));
    forall i | 0 <= i < |at| ensures KeptMessage(h, at[i]) {
      assert Kept(h)(at[i]);
    }
    forall j | 0 <= j < |h| && KeptMessage(h, j) ensures j in at {
      assert Kept(h)(j);
    }
  }

  // ---------------------------------------------------------------------------
  // The scrub, place by place
  // ---------------------------------------------------------------------------

  /** The five kinds of part that replay as they are. */
  predicate Replays(p: Part) {
    p.kind == Text || p.kind == Image || p.kind == File || p.kind == ToolCall || p.kind == ToolResult
  }

  /** Of some parts those that replay, in order, each as it was but without provider options. */
  ghost predicate ScrubbedParts(ps: seq<Part>, out: seq<Part>, at: seq<nat>) {
    && |at| == |out|
    && Increasing(at)
    && (forall i | 0 <= i < |at| ::
          && at[i] < |ps| && Replays(ps[at[i]])
          && out[i] == Unoptioned(ps[at[i]]))
    && (forall j | 0 <= j < |ps| && Replays(ps[j]) :: j in at)
  }

  function ReplaysAt(ps: seq<Part>): nat -> bool {
    (j: nat) => j < |ps| && Replays(ps[j])
  }

  function Unoptioned(p: Part): Part {
    Part(p.kind, p.toolCallId, p.body, None)
  }

  lemma {:induction false} StripPartsPlaced(ps: seq<Part>, n: nat)
    requires n <= |ps|
    ensures var at, out := Picks(n, |ps|, ReplaysAt(ps)), StripParts(ps[n..]);
            |out| == |at| && forall i | 0 <= i < |at| :: at[i] < |ps| && out[i] == Unoptioned(ps[at[i]])
    decreases |ps| - n
  {
    if n < |ps| {
      StripPartsPlaced(ps, n + 1);
      PicksLaws(n + 1, |ps|, ReplaysAt(ps));
      assert ps[n..][1..] == ps[n + 1..];
      assert StripParts(ps[n..]) == (if Replays(ps[n]) then [Unoptioned(ps[n])] else []) + StripParts(ps[n + 1..]);
    }
  }

  lemma StripPartsExactly(ps: seq<Part>) returns (at: seq<nat>)
    ensures ScrubbedParts(ps, StripParts(ps), at)
  {
    hide StripParts;
    assert ps[0..] == ps;
    StripPartsPlaced(ps, 0);
    PicksLaws(0, |ps|, ReplaysAt(ps));
    at := Picks(0, |ps|, ReplaysAt(ps));
    forall i | 0 <= i < |at| ensures Replays(ps[at[i]]) {
      assert ReplaysAt(ps)(at[i]);
    }
    forall j | 0 <= j < |ps| && Replays(ps[j]) ensures j in at {
      assert ReplaysAt(ps)(j);
    }
  }

  ghost predicate ScrubbedMessage(m: Message, out: Message) {
    && out.role == m.role
    && (m.content.Plain? ==> out == m)
    && (m.content.Parts? ==> out.content.Parts? && exists at :: ScrubbedParts(m.content.parts, out.content.parts, at))
  }

  predicate Replayed(m: Message) {
    m.content.Plain? || exists i | 0 <= i < |m.content.parts| :: Replays(m.content.parts[i])
  }

  ghost predicate ScrubbedPlaces(h: History, out: History, at: seq<nat>) {
    && |at| == |out|
    && Increasing(at)
    && (forall i | 0 <= i < |at| :: at[i] < |h| && Replayed(h[at[i]]) && ScrubbedMessage(h[at[i]], out[i]))
    && (forall j | 0 <= j < |h| && Replayed(h[j]) :: j in at)
  }

  lemma StripMessage(m: Message)
    ensures Strip([m]) == [] <==> !Replayed(m)
    ensures Strip([m]) != [] ==> |Strip([m])| == 1 && ScrubbedMessage(m, Strip([m])[0])
  {
    hide StripParts, Strip, Replays;
    StripSingle(m);
    if m.content.Parts? {
      var ps := m.content.parts;
      var at := StripPartsExactly(ps);
      assert StripParts(ps) == [] <==> at == [];
      assert at != [] ==> Replays(ps[at[0]]);
    }
  }

  function ReplayedAt(h: History): nat -> bool {
    (j: nat) => j < |h| && Replayed(h[j])
  }

  lemma {:induction false} StripPlaced(h: History, n: nat)
    requires n <= |h|
    ensures var at, out := Picks(n, |h|, ReplayedAt(h)), Strip(h[n..]);
            |out| == |at| && forall i | 0 <= i < |at| :: at[i] < |h| && ScrubbedMessage(h[at[i]], out[i])
    decreases |h| - n
  {
    hide Strip, ScrubbedMessage, Replayed;
    if n == |h| {
      StripNone();
    } else {
      StripPlaced(h, n + 1);
      PicksLaws(n + 1, |h|, ReplayedAt(h));
      assert h[n..] == [h[n]] + h[n + 1..];
      StripAppend([h[n]], h[n + 1..]);
      StripMessage(h[n]);
    }
  }

  /** The scrub, place by place: every replayable part survives with its body, and nothing else does. */
  lemma StripExactly(h: History) returns (at: seq<nat>)
    ensures ScrubbedPlaces(h, Strip(h), at)
  {
    hide Strip, ScrubbedMessage, Replayed;
    assert h[0..] == h;
    StripPlaced(h, 0);
    PicksLaws(0, |h|, ReplayedAt(h));
    at := Picks(0, |h|, ReplayedAt(h));
    forall i | 0 <= i < |at| ensures Replayed(h[at[i]]) {
      assert ReplayedAt(h)(at[i]);
    }
    forall j | 0 <= j < |h| && Replayed(h[j]) ensures j in at {
      assert ReplayedAt(h)(j);
    }
  }
}
