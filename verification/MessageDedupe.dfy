/**
 * The webhook de-duplication tracker (whatsapp/src/message-dedupe.ts): keys in flight, and
 * delivered keys kept for seven days up to a cap. The clock is a parameter.
 */
module MessageDedupe {
  import opened Options
  import opened OrderedMap

  const DEDUPE_TTL_MS: int := 7 * 24 * 60 * 60 * 1000
  const DEDUPE_MAX_ENTRIES: nat := 100_000

  type Times = seq<Entry<int>>

  // ---------------------------------------------------------------------------
  // The sweep
  // ---------------------------------------------------------------------------

  function DropOld(m: Times, cutoff: int): Times {
    Filter(m, (at: int) => at >= cutoff)
  }

  function InsertByTime(e: Entry<int>, sorted: Times): Times {
    if sorted == [] || e.value <= sorted[0].value then [e] + sorted
    else [sorted[0]] + InsertByTime(e, sorted[1..])
  }

  /** The host language's stable sort on the time of each entry. */
  function SortByTime(m: Times): Times {
    if m == [] then [] else InsertByTime(m[0], SortByTime(m[1..]))
  }

  /** The oldest entries in excess of the cap. */
  function Victims(m: Times): Times {
    if |m| <= DEDUPE_MAX_ENTRIES then []
    else
      SortSize(m);
      SortByTime(m)[..|m| - DEDUPE_MAX_ENTRIES]
  }

  function Evict(m: Times): Times {
    RemoveAll(m, Victims(m))
  }

  function Sweep(m: Times, now: int): Times {
    Evict(DropOld(m, now - DEDUPE_TTL_MS))
  }

  lemma {:induction false} InsertLaws(e: Entry<int>, s: Times, k: string)
    ensures |InsertByTime(e, s)| == |s| + 1
    ensures Has(InsertByTime(e, s), k) <==> k == e.key || Has(s, k)
    ensures forall x <- InsertByTime(e, s) :: x == e || x in s
  {
    if s != [] {
      InsertLaws(e, s[1..], k);
    }
  }

  lemma {:induction false} SortSize(m: Times)
    ensures |SortByTime(m)| == |m|
  {
    if m != [] {
      SortSize(m[1..]);
      InsertLaws(m[0], SortByTime(m[1..]), "");
    }
  }

  ghost predicate Ascending(s: Times) {
    forall i, j | 0 <= i < j < |s| :: s[i].value <= s[j].value
  }

  lemma {:induction false} InsertAscending(e: Entry<int>, s: Times)
    requires Ascending(s)
    ensures Ascending(InsertByTime(e, s))
  {
    if s != [] && e.value > s[0].value {
      var tail := InsertByTime(e, s[1..]);
      InsertAscending(e, s[1..]);
      InsertLaws(e, s[1..], "");
      forall j | 0 <= j < |tail| ensures s[0].value <= tail[j].value {
        assert tail[j] in tail;
      }
    }
  }

  lemma {:induction false} InsertDistinct(e: Entry<int>, s: Times)
    requires Distinct(s) && !Has(s, e.key)
    ensures Distinct(InsertByTime(e, s))
  {
    if s != [] && e.value > s[0].value {
      InsertDistinct(e, s[1..]);
      InsertLaws(e, s[1..], s[0].key);
    }
  }

  lemma {:induction false} SortLaws(m: Times)
    requires Distinct(m)
    ensures Ascending(SortByTime(m)) && Distinct(SortByTime(m))
    ensures forall k :: Has(SortByTime(m), k) <==> Has(m, k)
    ensures forall e <- SortByTime(m) :: e in m
  {
    if m != [] {
      SortLaws(m[1..]);
      InsertAscending(m[0], SortByTime(m[1..]));
      InsertDistinct(m[0], SortByTime(m[1..]));
      forall k {
        InsertLaws(m[0], SortByTime(m[1..]), k);
      }
    }
  }

  lemma {:induction false} InsertBeforeLast(e: Entry<int>, s: Times, last: Entry<int>)
    requires e.value <= last.value
    ensures InsertByTime(e, s + [last]) == InsertByTime(e, s) + [last]
  {
    if s == [] {
      assert s + [last] == [last];
    } else {
      assert (s + [last])[1..] == s[1..] + [last];
      InsertBeforeLast(e, s[1..], last);
    }
  }

  /** The sort is stable: the newest entry, appended last, stays last. */
  lemma {:induction false} NewestSortsLast(m: Times, last: Entry<int>)
    requires forall e <- m :: e.value <= last.value
    ensures SortByTime(m + [last]) == SortByTime(m) + [last]
  {
    if m == [] {
      assert m + [last] == [last];
      assert [last][1..] == [];
    } else {
      assert (m + [last])[1..] == m[1..] + [last];
      NewestSortsLast(m[1..], last);
      InsertBeforeLast(m[0], SortByTime(m[1..]), last);
    }
  }

  lemma DropOldLaws(m: Times, cutoff: int, k: string)
    requires Distinct(m)
    ensures Distinct(DropOld(m, cutoff)) && |DropOld(m, cutoff)| <= |m|
    ensures Get(DropOld(m, cutoff), k) == if Has(m, k) && Get(m, k).value < cutoff then None else Get(m, k)
    ensures forall e <- DropOld(m, cutoff) :: e in m && e.value >= cutoff
  {
    FilterLaws(m, (at: int) => at >= cutoff, k);
  }

  lemma DropOldAppend(a: Times, b: Times, cutoff: int)
    ensures DropOld(a + b, cutoff) == DropOld(a, cutoff) + DropOld(b, cutoff)
  {
    FilterAppend(a, b, (at: int) => at >= cutoff);
  }

  // ---------------------------------------------------------------------------
  // What the sweep keeps
  // ---------------------------------------------------------------------------

  lemma {:induction false} PrefixDistinct(s: Times, n: nat)
    requires Distinct(s) && n <= |s|
    ensures Distinct(s[..n]) && Distinct(s[n..])
    ensures forall e <- s[..n] :: !Has(s[n..], e.key)
  {
    assert s == s[..n] + s[n..];
    DistinctAppend(s[..n], s[n..]);
  }

  lemma VictimsLaws(m: Times)
    requires Distinct(m)
    ensures Distinct(Victims(m)) && forall e <- Victims(m) :: Has(m, e.key)
    ensures |m| > DEDUPE_MAX_ENTRIES ==> |Victims(m)| == |m| - DEDUPE_MAX_ENTRIES
  {
    if |m| > DEDUPE_MAX_ENTRIES {
      SortSize(m);
      SortLaws(m);
      PrefixDistinct(SortByTime(m), |m| - DEDUPE_MAX_ENTRIES);
      forall e <- Victims(m) ensures Has(m, e.key) {
        assert e in SortByTime(m);
        EntryHas(m, e);
      }
    }
  }

  lemma EvictLaws(m: Times, k: string)
    requires Distinct(m)
    ensures Distinct(Evict(m)) && |Evict(m)| <= DEDUPE_MAX_ENTRIES
    ensures Get(Evict(m), k) == if Has(Victims(m), k) then None else Get(m, k)
  {
    hide Victims, Distinct;
    VictimsLaws(m);
    RemoveAllSize(m, Victims(m));
    RemoveAllLaws(m, Victims(m), k);
    assert |m| <= DEDUPE_MAX_ENTRIES ==> |Evict(m)| <= |m|;
  }

  /** After a sweep the map never exceeds the cap, and holds nothing it did not hold before. */
  lemma SweepBounds(m: Times, now: int, k: string)
    requires Distinct(m)
    ensures Distinct(Sweep(m, now)) && |Sweep(m, now)| <= DEDUPE_MAX_ENTRIES
    ensures Has(Sweep(m, now), k) ==> Get(Sweep(m, now), k) == Get(m, k) && Get(m, k).value >= now - DEDUPE_TTL_MS
  {
    hide Evict, DropOld, Victims;
    DropOldLaws(m, now - DEDUPE_TTL_MS, k);
    EvictLaws(DropOld(m, now - DEDUPE_TTL_MS), k);
  }

  /** At least `DEDUPE_MAX_ENTRIES` keys other than `k`, all marked at `t` or later, are held. */
  ghost predicate CapacityHeld(m: Times, k: string, t: int) {
    exists others: Times ::
      && |others| == DEDUPE_MAX_ENTRIES && Distinct(others)
      && forall e <- others :: e.key != k && e.value >= t && Get(m, e.key) == Some(e.value)
  }

  /** An evicted key leaves a full map of keys no older behind. */
  lemma {:induction false} EvictedByFull(m: Times, k: string)
    requires Distinct(m) && Has(Victims(m), k)
    ensures Has(m, k) && CapacityHeld(m, k, Get(m, k).value)
  {
    hide Distinct, Get, SortByTime;
    if |m| <= DEDUPE_MAX_ENTRIES {
      NoVictims(m, k);
      return;
    }
    SortSize(m);
    SortLaws(m);
    var sorted, n := SortByTime(m), |m| - DEDUPE_MAX_ENTRIES;
    PrefixDistinct(sorted, n);
    GetEntry(sorted[..n], k);
    var v := Entry(k, Get(sorted[..n], k).value);
    EntryHas(m, v);
    LaterAreHeld(m, sorted, n, v);
    assert CapacityHeld(m, k, v.value) by {
      assert |sorted[n..]| == DEDUPE_MAX_ENTRIES;
    }
  }

  lemma LaterAreHeld(m: Times, sorted: Times, n: nat, v: Entry<int>)
    requires Distinct(m) && Distinct(sorted) && Ascending(sorted) && forall e <- sorted :: e in m
    requires n <= |sorted| && v in sorted[..n]
    ensures Distinct(sorted[n..])
    ensures forall e <- sorted[n..] :: e.key != v.key && e.value >= v.value && Get(m, e.key) == Some(e.value)
  {
    hide Distinct, Get;
    PrefixDistinct(sorted, n);
    var others := sorted[n..];
    var i :| 0 <= i < n && sorted[i] == v;
    forall e <- others ensures e.key != v.key && e.value >= v.value && Get(m, e.key) == Some(e.value) {
      var j :| 0 <= j < |others| && others[j] == e;
      assert sorted[n + j] == e;
      EntryHas(others, e);
      EntryHas(m, e);
    }
  }

  /** A key lost in a sweep was too old, or was pushed out by a full map of keys no older. */
  lemma LostInSweep(m: Times, now: int, k: string)
    requires Distinct(m) && Has(m, k) && !Has(Sweep(m, now), k)
    ensures Get(m, k).value < now - DEDUPE_TTL_MS || CapacityHeld(m, k, Get(m, k).value)
  {
    hide Distinct, Get, Evict, DropOld, Victims;
    var t, cutoff := Get(m, k).value, now - DEDUPE_TTL_MS;
    var young := DropOld(m, cutoff);
    DropOldLaws(m, cutoff, k);
    EvictLaws(young, k);
    if t >= cutoff {
      EvictedByFull(young, k);
      var others: Times :|
        && |others| == DEDUPE_MAX_ENTRIES && Distinct(others)
        && forall e <- others :: e.key != k && e.value >= t && Get(young, e.key) == Some(e.value);
      forall e <- others ensures Get(m, e.key) == Some(e.value) {
        DropOldLaws(m, cutoff, e.key);
      }
    }
  }

  // ---------------------------------------------------------------------------
  // The tracker as a state machine
  // ---------------------------------------------------------------------------

  datatype State = State(delivered: Times, inflight: set<string>)

  datatype Op = Acquire(key: string) | Mark(key: string) | Release(key: string)

  function Accepts(s: State, key: string, now: int): bool {
    key !in s.inflight && !Has(Sweep(s.delivered, now), key)
  }

  function Step(s: State, op: Op, now: int): State {
    match op
    case Acquire(k) =>
      State(Sweep(s.delivered, now), if Accepts(s, k, now) then s.inflight + {k} else s.inflight)
    case Mark(k) => State(Sweep(Put(s.delivered, k, now), now), s.inflight - {k})
    case Release(k) => s.(inflight := s.inflight - {k})
  }

  /** What every step keeps: one entry per key, at most the cap, and no entry from the future. */
  ghost predicate Sound(s: State, now: int) {
    && Distinct(s.delivered)
    && |s.delivered| <= DEDUPE_MAX_ENTRIES
    && forall e <- s.delivered :: e.value <= now
  }

  lemma SweepNoFuture(m: Times, now: int)
    requires Distinct(m) && forall e <- m :: e.value <= now
    ensures forall e <- Sweep(m, now) :: e.value <= now
  {
    forall e <- Sweep(m, now) ensures e.value <= now {
      SweepBounds(m, now, e.key);
      EntryHas(Sweep(m, now), e);
      GetEntry(m, e.key);
    }
  }

  lemma StepSound(s: State, op: Op, before: int, now: int)
    requires Sound(s, before) && before <= now
    ensures Sound(Step(s, op, now), now)
  {
    var m := if op.Mark? then Put(s.delivered, op.key, now) else s.delivered;
    PutDistinct(s.delivered, op.key, now);
    forall e <- m ensures e.value <= now {
      EntryHas(m, e);
      PutLaws(s.delivered, op.key, now, e.key);
      if op.Mark? && e.key != op.key {
        GetEntry(s.delivered, e.key);
      }
    }
    SweepBounds(m, now, "");
    SweepNoFuture(m, now);
  }

  lemma OneVictim(kept: Times, e: Entry<int>)
    requires |kept| == DEDUPE_MAX_ENTRIES && forall x <- kept :: x.value <= e.value
    ensures |SortByTime(kept)| == |kept| && Victims(kept + [e]) == SortByTime(kept)[..1]
  {
    hide SortByTime;
    NewestSortsLast(kept, e);
    SortSize(kept);
    var sorted := SortByTime(kept);
    assert (sorted + [e])[..1] == sorted[..1];
  }

  /** Over the cap by one, with the newest entry last, eviction takes another. */
  lemma NewestNotVictim(kept: Times, e: Entry<int>)
    requires Distinct(kept + [e]) && |kept| <= DEDUPE_MAX_ENTRIES
    requires forall x <- kept :: x.value <= e.value
    ensures !Has(Victims(kept + [e]), e.key)
  {
    hide Get, SortByTime, Victims;
    if |kept| == DEDUPE_MAX_ENTRIES {
      OneVictim(kept, e);
      DistinctAppend(kept, [e]);
      SortLaws(kept);
      var sorted := SortByTime(kept);
      assert sorted[..1] + sorted[1..] == sorted;
      GetAppend(sorted[..1], sorted[1..], e.key);
      if Has(kept, e.key) {
        GetEntry(kept, e.key);
        EntryHas([e], e);
      }
    } else {
      NoVictims(kept + [e], e.key);
    }
  }

  /** The key just marked always survives its own sweep. */
  lemma MarkSurvives(s: State, k: string, before: int, now: int)
    requires Sound(s, before) && before <= now
    ensures Get(Step(s, Mark(k), now).delivered, k) == Some(now)
  {
    hide Get, Victims, Distinct, Evict, DropOld, Put;
    var m, e := s.delivered, Entry(k, now);
    var put, cutoff := Put(m, k, now), now - DEDUPE_TTL_MS;
    PutDistinct(m, k, now);
    PutLaws(m, k, now, k);
    DropOldLaws(put, cutoff, k);
    DropOldLaws(m, cutoff, k);
    EvictLaws(DropOld(put, cutoff), k);
    if Has(m, k) {
      NoVictims(DropOld(put, cutoff), k);
    } else {
      DropOldAppend(m, [e], cutoff);
      DropOldOne(e, cutoff);
      NewestNotVictim(DropOld(m, cutoff), e);
    }
  }

  lemma NoVictims(m: Times, k: string)
    requires |m| <= DEDUPE_MAX_ENTRIES
    ensures !Has(Victims(m), k)
  {
  }

  lemma DropOldOne(e: Entry<int>, cutoff: int)
    requires e.value >= cutoff
    ensures DropOld([e], cutoff) == [e]
  {
    FilterOne(e, (at: int) => at >= cutoff);
  }

  // ---------------------------------------------------------------------------
  // Whole runs
  // ---------------------------------------------------------------------------

  datatype Timed = Timed(at: int, op: Op)

  ghost predicate Chronological(run: seq<Timed>) {
    forall i, j | 0 <= i <= j < |run| :: run[i].at <= run[j].at
  }

  /** The state after the first `n` steps of a run that starts empty. */
  function After(run: seq<Timed>, n: nat): State
    requires n <= |run|
  {
    if n == 0 then State([], {}) else Step(After(run, n - 1), run[n - 1].op, run[n - 1].at)
  }

  lemma {:induction false} RunSound(run: seq<Timed>, n: nat, now: int)
    requires Chronological(run) && n <= |run|
    requires forall i | 0 <= i < n :: run[i].at <= now
    ensures Sound(After(run, n), now)
  {
    if n > 0 {
      RunSound(run, n - 1, run[n - 1].at);
      StepSound(After(run, n - 1), run[n - 1].op, run[n - 1].at, run[n - 1].at);
    }
  }

  /** What the sweep of one step looks at. */
  function Swept(s: State, timed: Timed): Times {
    if timed.op.Mark? then Put(s.delivered, timed.op.key, timed.at) else s.delivered
  }

  /** Why the tracker may have forgotten a key marked at `t`, by step `j`. */
  ghost predicate Forgettable(run: seq<Timed>, i: nat, j: nat, k: string, t: int)
    requires i <= j < |run|
  {
    || t < run[j].at - DEDUPE_TTL_MS
    || exists m {:trigger Swept(After(run, m), run[m])} | i <= m <= j && !run[m].op.Release? ::
         CapacityHeld(Swept(After(run, m), run[m]), k, t)
  }

  lemma CapacityHeldWeaken(m: Times, k: string, t: int, t': int)
    requires CapacityHeld(m, k, t') && t <= t'
    ensures CapacityHeld(m, k, t)
  {
    var others: Times :|
      && |others| == DEDUPE_MAX_ENTRIES && Distinct(others)
      && forall e <- others :: e.key != k && e.value >= t' && Get(m, e.key) == Some(e.value);
    assert forall e <- others :: e.value >= t;
  }

  /** From a mark on, the key is held with a time no earlier, or there is a reason to forget it. */
  lemma {:induction false} HeldOrForgettable(run: seq<Timed>, i: nat, j: nat, k: string)
    requires Chronological(run) && i <= j < |run| && run[i].op == Mark(k)
    ensures var held := Get(After(run, j + 1).delivered, k);
            (held.Some? && held.value >= run[i].at) || Forgettable(run, i, j, k, run[i].at)
    decreases j
  {
    var t := run[i].at;
    RunSound(run, j, run[j].at);
    var s, now := After(run, j), run[j].at;
    if run[j].op == Mark(k) {
      MarkSurvives(s, k, now, now);
    } else {
      HeldOrForgettable(run, i, j - 1, k);
      if !Forgettable(run, i, j - 1, k, t) {
        HeldStep(s, run[j], k);
        var t' := Get(s.delivered, k).value;
        if !Has(After(run, j + 1).delivered, k) && t' >= now - DEDUPE_TTL_MS {
          CapacityHeldWeaken(Swept(s, run[j]), k, t, t');
        }
      } else if t >= run[j - 1].at - DEDUPE_TTL_MS {
        var m :| i <= m <= j - 1 && !run[m].op.Release? && CapacityHeld(Swept(After(run, m), run[m]), k, t);
        assert i <= m <= j;
      }
    }
  }

  lemma HeldStep(s: State, timed: Timed, k: string)
    requires Sound(s, timed.at) && Has(s.delivered, k) && timed.op != Mark(k)
    ensures var s' := Step(s, timed.op, timed.at); var t := Get(s.delivered, k).value;
            || Get(s'.delivered, k) == Some(t)
            || (!Has(s'.delivered, k) && (t < timed.at - DEDUPE_TTL_MS || CapacityHeld(Swept(s, timed), k, t)))
  {
    var m := Swept(s, timed);
    PutDistinct(s.delivered, timed.op.key, timed.at);
    PutLaws(s.delivered, timed.op.key, timed.at, k);
    SweepBounds(m, timed.at, k);
    if !Has(Sweep(m, timed.at), k) {
      LostInSweep(m, timed.at, k);
    }
  }

  /**
   * The forgetting bound: if a key marked delivered is acquired again, then the mark is more
   * than seven days old, or some sweep since then held a full map of other keys no older.
   */
  lemma ForgettingBound(run: seq<Timed>, i: nat, j: nat, k: string)
    requires Chronological(run) && i < j < |run|
    requires run[i].op == Mark(k) && run[j].op == Acquire(k)
    requires Accepts(After(run, j), k, run[j].at)
    ensures Forgettable(run, i, j, k, run[i].at)
  {
    HeldOrForgettable(run, i, j, k);
  }

  // ---------------------------------------------------------------------------
  // What a run has acquired and delivered
  // ---------------------------------------------------------------------------

  ghost predicate LastMark(run: seq<Timed>, i: nat, n: nat, k: string)
    requires n <= |run|
  {
    i < n && run[i].op == Mark(k) && forall m | i < m < n :: run[m].op != Mark(k)
  }

  lemma StepDelivers(s: State, op: Op, now: int, k: string)
    requires Distinct(s.delivered) && Has(Step(s, op, now).delivered, k)
    ensures Get(Step(s, op, now).delivered, k) == if op == Mark(k) then Some(now) else Get(s.delivered, k)
  {
    var m := if op.Mark? then Put(s.delivered, op.key, now) else s.delivered;
    PutDistinct(s.delivered, op.key, now);
    PutLaws(s.delivered, op.key, now, k);
    SweepBounds(m, now, k);
  }

  /** A key is held as delivered with the time of its last mark. */
  lemma {:induction false} DeliveredIsLastMark(run: seq<Timed>, n: nat, k: string)
    requires Chronological(run) && n <= |run| && Has(After(run, n).delivered, k)
    ensures exists i | 0 <= i < n :: LastMark(run, i, n, k) && Get(After(run, n).delivered, k) == Some(run[i].at)
  {
    hide Step, Get, Sound;
    if n == 0 {
      NothingHeld(k);
    } else {
      RunDistinct(run, n - 1);
      StepDelivers(After(run, n - 1), run[n - 1].op, run[n - 1].at, k);
      if run[n - 1].op == Mark(k) {
        assert LastMark(run, n - 1, n, k);
      } else {
        DeliveredIsLastMark(run, n - 1, k);
        var i :| 0 <= i < n - 1 && LastMark(run, i, n - 1, k) && Get(After(run, n).delivered, k) == Some(run[i].at);
        assert LastMark(run, i, n, k);
      }
    }
  }

  lemma NothingHeld(k: string)
    ensures !Has<int>([], k)
  {
  }

  lemma RunDistinct(run: seq<Timed>, n: nat)
    requires Chronological(run) && n <= |run|
    ensures Distinct(After(run, n).delivered)
  {
    RunSound(run, n, if n > 0 then run[n - 1].at else 0);
  }

  /** At `i` the key was asked for and not held as delivered, and it is not done with by step `n`. */
  ghost predicate AcquiredAt(run: seq<Timed>, i: nat, n: nat, k: string)
    requires n <= |run|
  {
    && i < n && run[i].op == Acquire(k) && !Has(After(run, i + 1).delivered, k)
    && forall m | i < m < n :: run[m].op != Mark(k) && run[m].op != Release(k)
  }

  ghost predicate AcquiredBefore(run: seq<Timed>, n: nat, k: string)
    requires n <= |run|
  {
    exists i | 0 <= i < n :: AcquiredAt(run, i, n, k)
  }

  lemma AcquiredStep(run: seq<Timed>, n: nat, k: string)
    requires 0 < n <= |run|
    ensures var op := run[n - 1].op;
            AcquiredBefore(run, n, k) <==>
            || (op == Acquire(k) && !Has(After(run, n).delivered, k))
            || (AcquiredBefore(run, n - 1, k) && op != Mark(k) && op != Release(k))
  {
    hide After;
    if AcquiredBefore(run, n, k) {
      var i :| 0 <= i < n && AcquiredAt(run, i, n, k);
      assert i < n - 1 ==> AcquiredAt(run, i, n - 1, k);
    }
    if run[n - 1].op == Acquire(k) && !Has(After(run, n).delivered, k) {
      assert AcquiredAt(run, n - 1, n, k);
    } else if AcquiredBefore(run, n - 1, k) && run[n - 1].op != Mark(k) && run[n - 1].op != Release(k) {
      var i :| 0 <= i < n - 1 && AcquiredAt(run, i, n - 1, k);
      assert AcquiredAt(run, i, n, k);
    }
  }

  /** A key is in flight exactly from an acquire that found it undelivered to its mark or release. */
  lemma {:induction false} InFlightExactly(run: seq<Timed>, n: nat, k: string)
    requires Chronological(run) && n <= |run|
    ensures k in After(run, n).inflight <==> AcquiredBefore(run, n, k)
    ensures k in After(run, n).inflight ==> !Has(After(run, n).delivered, k)
  {
    hide Sweep, Get;
    if n == 0 {
      NothingHeld(k);
    } else {
      hide AcquiredBefore;
      InFlightExactly(run, n - 1, k);
      AcquiredStep(run, n, k);
      RunDistinct(run, n - 1);
      if Has(After(run, n).delivered, k) {
        StepDelivers(After(run, n - 1), run[n - 1].op, run[n - 1].at, k);
      }
    }
  }

  /** The first acquire of a key succeeds. */
  lemma FirstAcquireSucceeds(run: seq<Timed>, j: nat, k: string)
    requires Chronological(run) && j < |run| && run[j].op == Acquire(k)
    requires forall i | 0 <= i < j :: run[i].op.key != k
    ensures k !in After(run, j).inflight && k in After(run, j + 1).inflight
  {
    hide Step, Has;
    InFlightExactly(run, j, k);
    if Has(After(run, j + 1).delivered, k) {
      DeliveredIsLastMark(run, j + 1, k);
    }
    AcquiredStep(run, j + 1, k);
    InFlightExactly(run, j + 1, k);
  }

  // ---------------------------------------------------------------------------
  // The class
  // ---------------------------------------------------------------------------

  class MessageDedupeTracker {
    var delivered: Times
    var inflight: set<string>

    constructor ()
      ensures View() == State([], {}) && Valid()
    {
      delivered, inflight := [], {};
    }

    ghost predicate Valid()
      reads this
    {
      Distinct(delivered)
    }

    ghost function View(): State
      reads this
    {
      State(delivered, inflight)
    }

    method TryAcquire(key: string, now: int) returns (accepted: bool)
      requires Valid()
      modifies this
      ensures Valid() && View() == Step(old(View()), Acquire(key), now)
      ensures delivered == Sweep(old(delivered), now)
      ensures accepted <==> key !in old(inflight) && !Has(delivered, key)
      ensures inflight == old(inflight) + if accepted then {key} else {}
    {
      SweepExpired(now);
      if key in inflight || Has(delivered, key) { return false; }
      inflight := inflight + {key};
      accepted := true;
    }

    method MarkDelivered(key: string, now: int)
      requires Valid()
      modifies this
      ensures Valid() && View() == Step(old(View()), Mark(key), now)
      ensures inflight == old(inflight) - {key} && delivered == Sweep(Put(old(delivered), key, now), now)
    {
      inflight := inflight - {key};
      PutDistinct(delivered, key, now);
      delivered := Put(delivered, key, now);
      SweepExpired(now);
    }

    method ReleaseKey(key: string, now: int)
      requires Valid()
      modifies this
      ensures Valid() && View() == Step(old(View()), Release(key), now)
      ensures inflight == old(inflight) - {key} && delivered == old(delivered)
    {
      inflight := inflight - {key};
    }

    method SweepExpired(now: int)
      requires Valid()
      modifies this`delivered
      ensures Valid() && delivered == Sweep(old(delivered), now)
    {
      var cutoff := now - DEDUPE_TTL_MS;
      DeleteOlderThan(cutoff);
      if |delivered| <= DEDUPE_MAX_ENTRIES {
        return;
      }
      ghost var young := delivered;
      SortSize(delivered);
      VictimsLaws(delivered);
      var sorted := SortByTime(delivered);
      var removeCount := |delivered| - DEDUPE_MAX_ENTRIES;
      for i := 0 to removeCount
        invariant Distinct(delivered)
        invariant RemoveAll(delivered, sorted[i..removeCount]) == RemoveAll(young, sorted[..removeCount])
      {
        assert sorted[i..removeCount][1..] == sorted[i + 1..removeCount];
        RemoveDistinct(delivered, sorted[i].key);
        delivered := Remove(delivered, sorted[i].key);
      }
    }

    method DeleteOlderThan(cutoff: int)
      requires Valid()
      modifies this`delivered
      ensures Valid() && delivered == DropOld(old(delivered), cutoff)
    {
      DropOldLaws(delivered, cutoff, "");
      delivered := DeleteUnless(delivered, (at: int) => at >= cutoff);
    }
  }
}
