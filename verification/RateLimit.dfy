/**
 * The request limiter (backend/src/middleware/rate-limit.ts): a store of counting windows, one
 * per key, bounded by eviction. The clock is a parameter.
 */
module RateLimit {
  import opened Options
  import opened OrderedMap

  const MAX_ENTRIES: nat := 10_000

  datatype Window = Window(count: nat, resetAt: int)

  type Store = seq<Entry<Window>>

  datatype Answer = Answer(admitted: bool, remaining: nat, resetAt: int)

  /** Limiter instances differ in prefix, so they never share a key; no key is empty. */
  function GetKey(keyPrefix: string, ip: string, path: string): string {
    keyPrefix + "|" + ip + "|" + path
  }

  /** No other prefix, address and path have the key of these exactly when none of the three holds a bar. */
  lemma KeyIsOwnExactly(keyPrefix: string, ip: string, path: string)
    ensures (forall keyPrefix', ip', path' | GetKey(keyPrefix', ip', path') == GetKey(keyPrefix, ip, path) ::
               keyPrefix' == keyPrefix && ip' == ip && path' == path)
            <==> '|' !in keyPrefix && '|' !in ip && '|' !in path
  {
    var k := GetKey(keyPrefix, ip, path);
    if '|' in keyPrefix {
      var a, b := AtBar(keyPrefix);
      assert GetKey(a, b, ip + "|" + path) == k;
    } else if '|' in ip {
      var a, b := AtBar(ip);
      assert GetKey(keyPrefix, a, b + "|" + path) == k;
    } else if '|' in path {
      var a, b := AtBar(path);
      assert GetKey(keyPrefix + "|" + ip, a, b) == k;
    } else {
      forall keyPrefix', ip', path' | GetKey(keyPrefix', ip', path') == k
        ensures keyPrefix' == keyPrefix && ip' == ip && path' == path
      {
        BarsAgree(keyPrefix, ip, path, keyPrefix', ip', path');
      }
    }
  }

  lemma AtBar(s: string) returns (a: string, b: string)
    requires '|' in s
    ensures s == a + "|" + b
  {
    var i :| 0 <= i < |s| && s[i] == '|';
    a, b := s[..i], s[i + 1..];
  }

  lemma BarsAgree(a: string, b: string, c: string, a': string, b': string, c': string)
    requires '|' !in a && '|' !in b && '|' !in c && a + "|" + b + "|" + c == a' + "|" + b' + "|" + c'
    ensures a == a' && b == b' && c == c'
  {
    var s := a + "|" + b + "|" + c;
    assert forall i | 0 <= i < |s| && i != |a| && i != |a| + 1 + |b| :: s[i] != '|';
    assert s[|a'|] == '|' by { assert (a' + "|" + b' + "|" + c')[|a'|] == '|'; }
    var second := |a'| + 1 + |b'|;
    assert s[second] == '|' by { assert (a' + "|" + b' + "|" + c')[second] == '|'; }
    assert a == s[..|a|] && a' == s[..|a'|];
    assert b == s[|a| + 1..|a| + 1 + |b|] && b' == s[|a'| + 1..second];
    assert c == s[|a| + 2 + |b|..] && c' == s[second + 1..];
  }

  // ---------------------------------------------------------------------------
  // Eviction
  // ---------------------------------------------------------------------------

  function DropExpired(m: Store, now: int): Store {
    Filter(m, (w: Window) => now <= w.resetAt)
  }

  /** The first entry, in insertion order, with the least reset time. */
  function Oldest(m: Store): Entry<Window>
    requires m != []
  {
    if |m| == 1 then m[0]
    else
      var o := Oldest(m[1..]);
      if m[0].value.resetAt <= o.value.resetAt then m[0] else o
  }

  lemma {:induction false} OldestLaws(m: Store)
    requires m != []
    ensures Oldest(m) in m
    ensures forall e <- m :: Oldest(m).value.resetAt <= e.value.resetAt
  {
    if |m| > 1 {
      OldestLaws(m[1..]);
    }
  }

  /** The source's last loop; it gives up if the oldest key is empty. */
  function EvictDown(m: Store): Store
    decreases |m|
  {
    if |m| <= MAX_ENTRIES || Oldest(m).key == "" then m
    else
      var k := Oldest(m).key;
      OldestLaws(m);
      EntryHas(m, Oldest(m));
      RemoveSize(m, k);
      EvictDown(Remove(m, k))
  }

  function Evict(m: Store, now: int): Store {
    if |m| <= MAX_ENTRIES then m else EvictDown(DropExpired(m, now))
  }

  lemma DropExpiredLaws(m: Store, now: int, k: string)
    requires Distinct(m)
    ensures Distinct(DropExpired(m, now)) && |DropExpired(m, now)| <= |m|
    ensures Get(DropExpired(m, now), k) == Live(m, k, now)
    ensures forall e <- DropExpired(m, now) :: e in m && now <= e.value.resetAt
  {
    FilterLaws(m, (w: Window) => now <= w.resetAt, k);
  }

  /** The window of a key, unless it has run out. */
  function Live(m: Store, k: string, now: int): Option<Window> {
    var w := Get(m, k);
    if w.Some? && now > w.value.resetAt then None else w
  }

  ghost predicate NoEmptyKey(m: Store) {
    !Has(m, "")
  }

  /** Eviction ends at the cap, and whatever it drops resets no later than anything it keeps. */
  lemma {:induction false} EvictDownLaws(m: Store)
    requires Distinct(m) && NoEmptyKey(m)
    ensures Distinct(EvictDown(m)) && |EvictDown(m)| <= MAX_ENTRIES
    ensures forall e <- EvictDown(m) :: e in m
    ensures forall e <- m, f <- EvictDown(m) :: e in EvictDown(m) || e.value.resetAt <= f.value.resetAt
    decreases |m|
  {
    hide Get;
    if |m| > MAX_ENTRIES {
      var o := Oldest(m);
      OldestLaws(m);
      EntryHas(m, o);
      RemoveSize(m, o.key);
      RemoveDistinct(m, o.key);
      RemoveSubset(m, o.key);
      RemoveLaws(m, o.key, "");
      EvictDownLaws(Remove(m, o.key));
      forall e <- m, f <- EvictDown(m)
        ensures e in EvictDown(m) || e.value.resetAt <= f.value.resetAt
      {
        if e.key == o.key {
          EntryHas(m, e);
        } else {
          EntryHas(m, e);
          RemoveLaws(m, o.key, e.key);
          GetEntry(Remove(m, o.key), e.key);
        }
      }
    }
  }

  /**
   * Capacity eviction: at most `MAX_ENTRIES` remain, everything kept was there, and a live entry
   * is dropped only when live entries alone exceed the cap, resetting no later than any kept one.
   */
  lemma EvictionBound(m: Store, now: int)
    requires Distinct(m) && NoEmptyKey(m)
    ensures Distinct(Evict(m, now)) && |Evict(m, now)| <= MAX_ENTRIES
    ensures forall e <- Evict(m, now) :: e in m
    ensures forall e <- m | now <= e.value.resetAt && e !in Evict(m, now) ::
              |DropExpired(m, now)| > MAX_ENTRIES && forall f <- Evict(m, now) :: e.value.resetAt <= f.value.resetAt
  {
    hide Get, EvictDown;
    DropExpiredLaws(m, now, "");
    if |m| > MAX_ENTRIES {
      var live := DropExpired(m, now);
      DropKeepsNonEmpty(m, now);
      EvictDownLaws(live);
      forall e <- m | now <= e.value.resetAt ensures e in live {
        EntryHas(m, e);
        DropExpiredLaws(m, now, e.key);
        LiveEntry(m, e, now);
        GetEntry(live, e.key);
      }
      if |live| <= MAX_ENTRIES {
        EvictDownSmall(live);
      }
    }
  }

  lemma LiveEntry(m: Store, e: Entry<Window>, now: int)
    requires Get(m, e.key) == Some(e.value) && now <= e.value.resetAt
    ensures Live(m, e.key, now) == Some(e.value)
  {
  }

  lemma DropKeepsNonEmpty(m: Store, now: int)
    requires Distinct(m) && NoEmptyKey(m)
    ensures NoEmptyKey(DropExpired(m, now))
  {
    DropExpiredLaws(m, now, "");
  }

  lemma EvictDownSmall(m: Store)
    requires |m| <= MAX_ENTRIES
    ensures EvictDown(m) == m
  {
  }

  // ---------------------------------------------------------------------------
  // Requests and clean-up
  // ---------------------------------------------------------------------------

  /** The window a request counts in: the live one, or a new one that opens now. */
  function Opened(m: Store, k: string, windowMs: nat, now: int): Window {
    if Live(m, k, now).Some? then Live(m, k, now).value else Window(0, now + windowMs)
  }

  /** The store before the request is counted. */
  function Prepared(m: Store, k: string, windowMs: nat, now: int): Store {
    if Live(m, k, now).Some? then m else Evict(Put(m, k, Window(0, now + windowMs)), now)
  }

  function Counted(w: Window): Window {
    w.(count := w.count + 1)
  }

  /** An entry evicted by its own insertion is counted on, but no longer in the store. */
  function Request(m: Store, k: string, windowMs: nat, now: int): Store {
    var m' := Prepared(m, k, windowMs, now);
    if Has(m', k) then Put(m', k, Counted(Opened(m, k, windowMs, now))) else m'
  }

  function Reply(m: Store, k: string, windowMs: nat, limit: nat, now: int): Answer {
    var w := Counted(Opened(m, k, windowMs, now));
    Answer(w.count <= limit, if w.count <= limit then limit - w.count else 0, w.resetAt)
  }

  datatype Op = Hit(key: string, windowMs: nat, limit: nat) | Cleanup

  datatype Timed = Timed(at: int, op: Op)

  function Step(m: Store, t: Timed): Store {
    match t.op
    case Hit(k, windowMs, _) => Request(m, k, windowMs, t.at)
    case Cleanup => DropExpired(m, t.at)
  }

  /** What every step keeps. */
  ghost predicate Sound(m: Store) {
    Distinct(m) && NoEmptyKey(m)
  }

  lemma PreparedSound(m: Store, k: string, windowMs: nat, now: int)
    requires Sound(m) && k != ""
    ensures Sound(Prepared(m, k, windowMs, now))
  {
    hide Get, Evict, Live;
    var put := Put(m, k, Window(0, now + windowMs));
    PutDistinct(m, k, Window(0, now + windowMs));
    PutLaws(m, k, Window(0, now + windowMs), "");
    EvictionBound(put, now);
    if Has(Evict(put, now), "") {
      GetEntry(Evict(put, now), "");
      EntryHas(put, Entry("", Get(Evict(put, now), "").value));
    }
  }

  lemma StepSound(m: Store, t: Timed)
    requires Sound(m) && (t.op.Hit? ==> t.op.key != "")
    ensures Sound(Step(m, t))
  {
    hide Get, Prepared, Opened, DropExpired;
    match t.op
    case Cleanup =>
      DropKeepsNonEmpty(m, t.at);
      DropExpiredLaws(m, t.at, "");
    case Hit(k, windowMs, _) =>
      PreparedSound(m, k, windowMs, t.at);
      var m' := Prepared(m, k, windowMs, t.at);
      PutDistinct(m', k, Counted(Opened(m, k, windowMs, t.at)));
      PutLaws(m', k, Counted(Opened(m, k, windowMs, t.at)), "");
  }

  // ---------------------------------------------------------------------------
  // Whole runs
  // ---------------------------------------------------------------------------

  ghost predicate ValidRun(run: seq<Timed>) {
    && (forall i, j | 0 <= i <= j < |run| :: run[i].at <= run[j].at)
    && (forall i | 0 <= i < |run| :: run[i].op.Hit? ==> run[i].op.key != "")
  }

  function After(run: seq<Timed>, n: nat): Store
    requires n <= |run|
  {
    if n == 0 then [] else Step(After(run, n - 1), run[n - 1])
  }

  lemma {:induction false} RunSound(run: seq<Timed>, n: nat)
    requires ValidRun(run) && n <= |run|
    ensures Sound(After(run, n))
  {
    hide Sound, Step;
    if n == 0 {
      EmptySound();
    } else {
      RunSound(run, n - 1);
      StepSound(After(run, n - 1), run[n - 1]);
    }
  }

  lemma EmptySound()
    ensures Sound([])
  {
  }

  /** Every request for `k` uses this window and limit, as one limiter instance does. */
  ghost predicate Uniform(run: seq<Timed>, k: string, windowMs: nat, limit: nat) {
    forall i | 0 <= i < |run| && run[i].op.Hit? && run[i].op.key == k :: run[i].op == Hit(k, windowMs, limit)
  }

  predicate Hits(t: Timed, k: string) {
    t.op.Hit? && t.op.key == k
  }

  /** The step `t` does not push a live entry of `k` out of the store. */
  ghost predicate Keeps(m: Store, t: Timed, k: string) {
    Hits(t, k) || Live(m, k, t.at).Some? ==> Has(Step(m, t), k)
  }

  ghost predicate NeverEvicted(run: seq<Timed>, k: string) {
    forall i {:trigger Keeps(After(run, i), run[i], k)} | 0 <= i < |run| :: Keeps(After(run, i), run[i], k)
  }

  /** Eviction changes no window it keeps. */
  lemma EvictGet(m: Store, now: int, k: string)
    requires Sound(m)
    ensures Has(Evict(m, now), k) ==> Get(Evict(m, now), k) == Get(m, k)
  {
    hide Get, Evict;
    EvictionBound(m, now);
    if Has(Evict(m, now), k) {
      GetEntry(Evict(m, now), k);
      EntryHas(m, Entry(k, Get(Evict(m, now), k).value));
    }
  }

  lemma PreparedOther(m: Store, key: string, windowMs: nat, k: string, now: int)
    requires Sound(m) && key != k && key != ""
    ensures Has(Prepared(m, key, windowMs, now), k) ==> Get(Prepared(m, key, windowMs, now), k) == Get(m, k)
  {
    hide Get, Evict, Live;
    var w := Window(0, now + windowMs);
    PutDistinct(m, key, w);
    PutLaws(m, key, w, k);
    PutLaws(m, key, w, "");
    EvictGet(Put(m, key, w), now, k);
  }

  /** A step on another key leaves the live window of `k` alone. */
  lemma OtherStep(m: Store, t: Timed, k: string, later: int)
    requires Sound(m) && !Hits(t, k) && Keeps(m, t, k) && t.at <= later
    requires t.op.Hit? ==> t.op.key != ""
    ensures Live(Step(m, t), k, later) == Live(m, k, later)
  {
    hide Get, Prepared, DropExpired, Opened;
    match t.op
    case Cleanup => DropExpiredLaws(m, t.at, k);
    case Hit(key, windowMs, _) =>
      PreparedOther(m, key, windowMs, k, t.at);
      PutLaws(Prepared(m, key, windowMs, t.at), key, Counted(Opened(m, key, windowMs, t.at)), k);
  }

  /** A kept request leaves its counted window in the store. */
  lemma OwnStep(m: Store, t: Timed, k: string)
    requires Hits(t, k) && Keeps(m, t, k)
    ensures Get(Step(m, t), k) == Some(Counted(Opened(m, k, t.op.windowMs, t.at)))
  {
    hide Get, Prepared, Opened;
    PutLaws(Prepared(m, k, t.op.windowMs, t.at), k, Counted(Opened(m, k, t.op.windowMs, t.at)), k);
  }

  // ---------------------------------------------------------------------------
  // At most two limits in any interval of one window length
  // ---------------------------------------------------------------------------

  /** An admitted request for `k` within `[lo, hi]`. */
  predicate AdmittedIn(m: Store, t: Timed, k: string, lo: int, hi: int) {
    Hits(t, k) && lo <= t.at <= hi && Reply(m, k, t.op.windowMs, t.op.limit, t.at).admitted
  }

  /** How many of the steps `i .. |run|` are admitted requests for `k` within `[lo, hi]`. */
  function AdmittedCount(run: seq<Timed>, i: nat, k: string, lo: int, hi: int): nat
    requires i <= |run|
    decreases |run| - i
  {
    if i == |run| then 0
    else (if AdmittedIn(After(run, i), run[i], k, lo, hi) then 1 else 0) + AdmittedCount(run, i + 1, k, lo, hi)
  }

  /** How many requests may still be admitted in `[lo, hi]` from time `now` on. */
  function Allowance(live: Option<Window>, now: int, limit: nat, lo: int, hi: int): nat {
    if now > hi then 0
    else
      match live
      case None => if now >= lo then limit else 2 * limit
      case Some(w) =>
        if w.resetAt < lo then 2 * limit
        else (if w.count < limit then limit - w.count else 0) + if w.resetAt < hi then limit else 0
  }

  lemma AllowanceExpires(w: Option<Window>, now: int, later: int, limit: nat, lo: int, hi: int)
    requires now <= later && (w.Some? ==> now <= w.value.resetAt)
    ensures Allowance(if w.Some? && later > w.value.resetAt then None else w, later, limit, lo, hi)
            <= Allowance(w, now, limit, lo, hi)
  {
  }

  lemma AllowanceSpent(w: Option<Window>, now: int, windowMs: nat, limit: nat, lo: int)
    requires w.Some? ==> now <= w.value.resetAt
    ensures var w' := Counted(if w.Some? then w.value else Window(0, now + windowMs)); var hi := lo + windowMs;
            Allowance(Some(w'), now, limit, lo, hi) + (if lo <= now <= hi && w'.count <= limit then 1 else 0)
            <= Allowance(w, now, limit, lo, hi)
  {
  }

  lemma {:induction false} AdmittedWithinAllowance(
    run: seq<Timed>, i: nat, k: string, windowMs: nat, limit: nat, lo: int)
    requires ValidRun(run) && Uniform(run, k, windowMs, limit) && NeverEvicted(run, k) && i < |run|
    ensures AdmittedCount(run, i, k, lo, lo + windowMs)
            <= Allowance(Live(After(run, i), k, run[i].at), run[i].at, limit, lo, lo + windowMs)
    decreases |run| - i
  {
    hide After, Step, Allowance;
    var hi := lo + windowMs;
    var m, t := After(run, i), run[i];
    RunSound(run, i);
    AfterNext(run, i);
    var live := Live(m, k, t.at);
    assert Keeps(m, t, k);
    if Hits(t, k) {
      OwnStep(m, t, k);
      AllowanceSpent(live, t.at, windowMs, limit, lo);
    }
    if i + 1 < |run| {
      var later := run[i + 1].at;
      AdmittedWithinAllowance(run, i + 1, k, windowMs, limit, lo);
      var held := if Hits(t, k) then Get(Step(m, t), k) else live;
      if !Hits(t, k) {
        OtherStep(m, t, k, later);
      }
      AllowanceExpires(held, t.at, later, limit, lo, hi);
    } else {
      assert AdmittedCount(run, i + 1, k, lo, hi) == 0;
    }
  }

  lemma AfterNext(run: seq<Timed>, i: nat)
    requires i < |run|
    ensures After(run, i + 1) == Step(After(run, i), run[i])
  {
  }

  /** For a key never evicted, any closed interval of one window length admits at most twice the limit. */
  lemma TwiceTheLimit(run: seq<Timed>, k: string, windowMs: nat, limit: nat, lo: int)
    requires ValidRun(run) && Uniform(run, k, windowMs, limit) && NeverEvicted(run, k)
    ensures AdmittedCount(run, 0, k, lo, lo + windowMs) <= 2 * limit
  {
    if run != [] {
      AdmittedWithinAllowance(run, 0, k, windowMs, limit, lo);
    }
  }

  // ---------------------------------------------------------------------------
  // Each window admits exactly its first `limit` requests
  // ---------------------------------------------------------------------------

  /** The request that opened the current window of `k` after `n` steps, whatever the store holds. */
  function Opener(run: seq<Timed>, n: nat, k: string, windowMs: nat): Option<nat>
    requires n <= |run|
    ensures Opener(run, n, k, windowMs).Some? ==> Opener(run, n, k, windowMs).value < n
  {
    if n == 0 then None
    else
      var o := Opener(run, n - 1, k, windowMs);
      if !Hits(run[n - 1], k) then o
      else if o.Some? && run[n - 1].at <= run[o.value].at + windowMs then o
      else Some(n - 1)
  }

  function HitCount(run: seq<Timed>, i: nat, n: nat, k: string): nat
    requires i <= n <= |run|
  {
    if n == i then 0 else HitCount(run, i, n - 1, k) + if Hits(run[n - 1], k) then 1 else 0
  }

  /** The store agrees with the openers: the window it holds is the opener's, with all its requests. */
  lemma {:induction false} WindowIsOpeners(run: seq<Timed>, n: nat, k: string, windowMs: nat, limit: nat, now: int)
    requires ValidRun(run) && Uniform(run, k, windowMs, limit) && NeverEvicted(run, k) && n <= |run|
    requires n > 0 ==> run[n - 1].at <= now
    ensures var o := Opener(run, n, k, windowMs);
            Live(After(run, n), k, now)
            == if o.Some? && now <= run[o.value].at + windowMs
               then Some(Window(HitCount(run, o.value, n, k), run[o.value].at + windowMs)) else None
    decreases n
  {
    hide After, Step, Get, Sound, Keeps;
    if n == 0 {
      AfterNone(run, k, now);
    } else {
      var m, t := After(run, n - 1), run[n - 1];
      RunSound(run, n - 1);
      AfterNext(run, n - 1);
      assert Keeps(m, t, k);
      if Hits(t, k) {
        WindowIsOpeners(run, n - 1, k, windowMs, limit, t.at);
        OwnStep(m, t, k);
        CountOne(run, n - 1, k);
        HeldIsLive(Step(m, t), k, now);
      } else {
        WindowIsOpeners(run, n - 1, k, windowMs, limit, now);
        OtherStep(m, t, k, now);
        OpenerStays(run, n, k, windowMs);
      }
    }
  }

  lemma HeldIsLive(m: Store, k: string, now: int)
    requires Has(m, k)
    ensures Live(m, k, now) == if now <= Get(m, k).value.resetAt then Get(m, k) else None
  {
  }

  lemma OpenerStays(run: seq<Timed>, n: nat, k: string, windowMs: nat)
    requires 0 < n <= |run| && !Hits(run[n - 1], k)
    ensures Opener(run, n, k, windowMs) == Opener(run, n - 1, k, windowMs)
    ensures forall i | 0 <= i < n :: HitCount(run, i, n, k) == HitCount(run, i, n - 1, k)
  {
  }

  lemma AfterNone(run: seq<Timed>, k: string, now: int)
    ensures Live(After(run, 0), k, now) == None
  {
  }

  lemma CountOne(run: seq<Timed>, n: nat, k: string)
    requires n < |run| && Hits(run[n], k)
    ensures HitCount(run, n, n + 1, k) == 1
  {
  }

  /** A request is admitted exactly when it is among the first `limit` of its window. */
  lemma FirstOfWindow(run: seq<Timed>, n: nat, k: string, windowMs: nat, limit: nat)
    requires ValidRun(run) && Uniform(run, k, windowMs, limit) && NeverEvicted(run, k)
    requires n < |run| && Hits(run[n], k)
    ensures var o := Opener(run, n + 1, k, windowMs);
            var reply := Reply(After(run, n), k, windowMs, limit, run[n].at);
            && o.Some?
            && var hits := HitCount(run, o.value, n + 1, k);
            && reply.admitted == (hits <= limit)
            && reply.remaining == (if hits <= limit then limit - hits else 0)
            && reply.resetAt == run[o.value].at + windowMs
  {
    hide After;
    WindowIsOpeners(run, n, k, windowMs, limit, run[n].at);
    CountOne(run, n, k);
  }

  // ---------------------------------------------------------------------------
  // Other clients are invisible
  // ---------------------------------------------------------------------------

  /** Of the first `n` steps the requests for `k`. */
  function Own(run: seq<Timed>, n: nat, k: string): seq<Timed>
    requires n <= |run|
  {
    if n == 0 then [] else Own(run, n - 1, k) + if Hits(run[n - 1], k) then [run[n - 1]] else []
  }

  /** The store of a client that is alone: at most its own entry. */
  ghost predicate Alone(m: Store, k: string) {
    m == [] || (|m| == 1 && m[0].key == k)
  }

  lemma AloneStep(m: Store, t: Timed, k: string)
    requires Alone(m, k) && Hits(t, k)
    ensures Alone(Step(m, t), k) && Keeps(m, t, k)
  {
    var w := Window(0, t.at + t.op.windowMs);
    assert m != [] ==> m[1..] == [];
    assert |Put(m, k, w)| == 1 && Put(m, k, w)[0].key == k;
    var m' := Prepared(m, k, t.op.windowMs, t.at);
    assert Alone(m', k) && m' != [];
    assert m'[1..] == [];
  }

  /** What a kept request leaves depends on the live window of its key alone. */
  lemma OwnLive(m: Store, m': Store, t: Timed, k: string, later: int)
    requires Hits(t, k) && Keeps(m, t, k) && Keeps(m', t, k) && t.at <= later
    requires Live(m, k, t.at) == Live(m', k, t.at)
    ensures Live(Step(m, t), k, later) == Live(Step(m', t), k, later)
  {
    OwnStep(m, t, k);
    OwnStep(m', t, k);
  }

  lemma AfterOwn(run: seq<Timed>, n: nat, k: string)
    requires n < |run|
    ensures !Hits(run[n], k) ==> Own(run, n + 1, k) == Own(run, n, k)
    ensures Hits(run[n], k) ==>
              After(Own(run, n + 1, k), |Own(run, n + 1, k)|) == Step(After(Own(run, n, k), |Own(run, n, k)|), run[n])
  {
    var own, all := Own(run, n, k), Own(run, n + 1, k);
    if Hits(run[n], k) {
      AfterPrefix(own, [run[n]], |own|);
      assert all[|own|] == run[n];
    }
  }

  lemma {:induction false} AfterPrefix(a: seq<Timed>, b: seq<Timed>, n: nat)
    requires n <= |a|
    ensures After(a + b, n) == After(a, n)
  {
    hide Step;
    if n > 0 { AfterPrefix(a, b, n - 1); }
  }

  /** The window of a key never evicted is the one it would have if no one else made requests. */
  lemma {:induction false} OthersInvisible(run: seq<Timed>, n: nat, k: string, now: int)
    requires ValidRun(run) && NeverEvicted(run, k) && n <= |run| && (n > 0 ==> run[n - 1].at <= now)
    ensures var own := Own(run, n, k);
            Alone(After(own, |own|), k) && Live(After(run, n), k, now) == Live(After(own, |own|), k, now)
    decreases n
  {
    hide After, Step, Get, Sound, Keeps, Live, Alone;
    if n == 0 {
      NoOneYet(run, k, now);
    } else {
      var m, t, own := After(run, n - 1), run[n - 1], Own(run, n - 1, k);
      RunSound(run, n - 1);
      AfterNext(run, n - 1);
      AfterOwn(run, n - 1, k);
      assert Keeps(m, t, k);
      if Hits(t, k) {
        OthersInvisible(run, n - 1, k, t.at);
        AloneStep(After(own, |own|), t, k);
        OwnLive(m, After(own, |own|), t, k, now);
      } else {
        OthersInvisible(run, n - 1, k, now);
        OtherStep(m, t, k, now);
      }
    }
  }

  lemma NoOneYet(run: seq<Timed>, k: string, now: int)
    ensures Own(run, 0, k) == [] && After(run, 0) == [] && After([], 0) == [] && Alone([], k)
  {
  }

  /** So every answer to it is the one it would get alone. */
  lemma AnswersAsAlone(run: seq<Timed>, n: nat, k: string)
    requires ValidRun(run) && NeverEvicted(run, k) && n < |run| && Hits(run[n], k)
    ensures var own, t := Own(run, n, k), run[n];
            Reply(After(run, n), k, t.op.windowMs, t.op.limit, t.at)
            == Reply(After(own, |own|), k, t.op.windowMs, t.op.limit, t.at)
  {
    hide After, Live;
    OthersInvisible(run, n, k, run[n].at);
  }

  // ---------------------------------------------------------------------------
  // Removing expired entries is invisible
  // ---------------------------------------------------------------------------

  /** Two stores that differ only in entries that have run out. */
  ghost predicate SameLive(m: Store, m': Store, now: int) {
    forall k :: Live(m, k, now) == Live(m', k, now)
  }

  /** A request whose new window still fits the cap among live entries. */
  ghost predicate Fits(m: Store, t: Timed) {
    t.op.Hit? ==>
      var put := Put(m, t.op.key, Window(0, t.at + t.op.windowMs));
      Live(m, t.op.key, t.at).Some? || |DropExpired(put, t.at)| <= MAX_ENTRIES
  }

  lemma SameLiveSize(m: Store, m': Store, now: int)
    requires Distinct(m) && Distinct(m') && SameLive(m, m', now)
    ensures |DropExpired(m, now)| == |DropExpired(m', now)|
  {
    hide Live, DropExpired;
    DropExpiredLaws(m, now, "");
    DropExpiredLaws(m', now, "");
    forall k ensures Has(DropExpired(m, now), k) <==> Has(DropExpired(m', now), k) {
      DropExpiredLaws(m, now, k);
      DropExpiredLaws(m', now, k);
    }
    SameKeysSameSize(DropExpired(m, now), DropExpired(m', now));
  }

  /** While live entries fit, eviction keeps every live window. */
  lemma EvictKeepsLive(m: Store, now: int, k: string)
    requires Distinct(m) && |DropExpired(m, now)| <= MAX_ENTRIES
    ensures Live(Evict(m, now), k, now) == Live(m, k, now)
  {
    DropExpiredLaws(m, now, k);
    EvictDownSmall(DropExpired(m, now));
  }

  /** The live windows after a step are determined by the live windows before it. */
  lemma StepLive(m: Store, t: Timed, k: string)
    requires Sound(m) && Fits(m, t) && (t.op.Hit? ==> t.op.key != "")
    ensures Live(Step(m, t), k, t.at)
            == if Hits(t, k) then Some(Counted(Opened(m, k, t.op.windowMs, t.at))) else Live(m, k, t.at)
  {
    hide Get, Evict, DropExpired;
    match t.op
    case Cleanup =>
      DropExpiredLaws(m, t.at, k);
      LiveTwice(m, k, t.at);
    case Hit(key, windowMs, _) =>
      var w := Window(0, t.at + windowMs);
      var put := Put(m, key, w);
      PutDistinct(m, key, w);
      PutLaws(m, key, w, k);
      PutLaws(m, key, w, key);
      if Live(m, key, t.at).None? {
        EvictKeepsLive(put, t.at, k);
        EvictKeepsLive(put, t.at, key);
      }
      var m' := Prepared(m, key, windowMs, t.at);
      PutLaws(m', key, Counted(Opened(m, key, windowMs, t.at)), k);
  }

  lemma LiveTwice(m: Store, k: string, now: int)
    ensures Live(m, k, now).Some? ==> now <= Live(m, k, now).value.resetAt
  {
  }

  lemma PutLive(m: Store, m': Store, k: string, w: Window, now: int)
    requires SameLive(m, m', now)
    ensures SameLive(Put(m, k, w), Put(m', k, w), now)
  {
    forall other ensures Live(Put(m, k, w), other, now) == Live(Put(m', k, w), other, now) {
      PutLaws(m, k, w, other);
      PutLaws(m', k, w, other);
      assert Live(m, other, now) == Live(m', other, now);
    }
  }

  lemma SameLiveStep(m: Store, m': Store, t: Timed)
    requires Sound(m) && Sound(m') && SameLive(m, m', t.at) && Fits(m, t) && (t.op.Hit? ==> t.op.key != "")
    ensures Fits(m', t) && SameLive(Step(m, t), Step(m', t), t.at)
    ensures t.op.Hit? ==> Reply(m, t.op.key, t.op.windowMs, t.op.limit, t.at)
                          == Reply(m', t.op.key, t.op.windowMs, t.op.limit, t.at)
  {
    hide Get, Step, DropExpired, Live;
    if t.op.Hit? {
      var w := Window(0, t.at + t.op.windowMs);
      PutLive(m, m', t.op.key, w, t.at);
      PutDistinct(m, t.op.key, w);
      PutDistinct(m', t.op.key, w);
      SameLiveSize(Put(m, t.op.key, w), Put(m', t.op.key, w), t.at);
    }
    forall k ensures Live(Step(m, t), k, t.at) == Live(Step(m', t), k, t.at) {
      StepLive(m, t, k);
      StepLive(m', t, k);
    }
  }

  lemma SameLiveLater(m: Store, m': Store, now: int, later: int)
    requires SameLive(m, m', now) && now <= later
    ensures SameLive(m, m', later)
  {
    forall k ensures Live(m, k, later) == Live(m', k, later) {
      assert Live(m, k, now) == Live(m', k, now);
    }
  }

  /** The answers to the requests of a run that starts in the store `m`. */
  function Answers(m: Store, run: seq<Timed>): seq<Answer>
    decreases |run|
  {
    if run == [] then []
    else
      (match run[0].op
       case Hit(k, windowMs, limit) => [Reply(m, k, windowMs, limit, run[0].at)]
       case Cleanup => [])
      + Answers(Step(m, run[0]), run[1..])
  }

  ghost predicate AllFit(m: Store, run: seq<Timed>)
    decreases |run|
  {
    run == [] || (Fits(m, run[0]) && AllFit(Step(m, run[0]), run[1..]))
  }

  /**
   * Expired-entry removal is invisible: stores that differ only in expired entries answer every
   * later run alike, as long as live entries never exceed the cap.
   */
  lemma {:induction false} ExpiredInvisible(m: Store, m': Store, run: seq<Timed>, now: int)
    requires Sound(m) && Sound(m') && SameLive(m, m', now) && ValidRun(run) && AllFit(m, run)
    requires run != [] ==> now <= run[0].at
    ensures Answers(m, run) == Answers(m', run)
    decreases |run|
  {
    hide Sound, SameLive, Step, Fits;
    if run != [] {
      var t := run[0];
      SameLiveLater(m, m', now, t.at);
      SameLiveStep(m, m', t);
      StepSound(m, t);
      StepSound(m', t);
      assert ValidRun(run[1..]);
      ExpiredInvisible(Step(m, t), Step(m', t), run[1..], t.at);
    }
  }

  /** In particular, running the clean-up first changes no answer. */
  lemma CleanupInvisible(m: Store, run: seq<Timed>, now: int)
    requires Sound(m) && ValidRun(run) && AllFit(m, run) && (run != [] ==> now <= run[0].at)
    ensures Answers(DropExpired(m, now), run) == Answers(m, run)
  {
    DropKeepsNonEmpty(m, now);
    DropExpiredLaws(m, now, "");
    forall k ensures Live(m, k, now) == Live(DropExpired(m, now), k, now) {
      DropExpiredLaws(m, now, k);
    }
    ExpiredInvisible(m, DropExpired(m, now), run, now);
  }

  // ---------------------------------------------------------------------------
  // The module's state
  // ---------------------------------------------------------------------------

  class RequestLimiter {
    var store: Store

    constructor ()
      ensures Sound(store) && store == []
    {
      store := [];
    }

    method RateLimit(keyPrefix: string, ip: string, path: string, windowMs: nat, limit: nat, now: int)
      returns (answer: Answer)
      requires Sound(store)
      modifies this
      ensures Sound(store) && store == Request(old(store), GetKey(keyPrefix, ip, path), windowMs, now)
      ensures answer == Reply(old(store), GetKey(keyPrefix, ip, path), windowMs, limit, now)
    {
      var key := GetKey(keyPrefix, ip, path);
      assert key != "";
      StepSound(store, Timed(now, Hit(key, windowMs, limit)));
      answer := Count(key, windowMs, limit, now);
    }

    method Count(key: string, windowMs: nat, limit: nat, now: int) returns (answer: Answer)
      requires Sound(store) && key != ""
      modifies this
      ensures store == Request(old(store), key, windowMs, now)
      ensures answer == Reply(old(store), key, windowMs, limit, now)
    {
      hide Get, Evict;
      var found := Get(store, key);
      var entry: Window;
      if found.None? || now > found.value.resetAt {
        entry := Window(0, now + windowMs);
        PutDistinct(store, key, entry);
        PutLaws(store, key, entry, "");
        store := Put(store, key, entry);
        EvictIfNeeded(now);
      } else {
        entry := found.value;
      }
      entry := Counted(entry);
      if Has(store, key) {
        store := Put(store, key, entry);
      }
      var remaining := if entry.count <= limit then limit - entry.count else 0;
      answer := Answer(entry.count <= limit, remaining, entry.resetAt);
    }

    method EvictIfNeeded(now: int)
      requires Sound(store)
      modifies this
      ensures store == Evict(old(store), now)
    {
      if |store| <= MAX_ENTRIES { return; }
      DeleteExpired(now);
      ghost var live := store;
      while |store| > MAX_ENTRIES
        invariant EvictDown(store) == EvictDown(live)
        decreases |store|
      {
        var oldestKey := FindOldest();
        if oldestKey == "" { return; }
        OldestLaws(store);
        EntryHas(store, Oldest(store));
        RemoveSize(store, oldestKey);
        store := Remove(store, oldestKey);
      }
    }

    /** The source's scan for the least reset time; the first one found wins. */
    method FindOldest() returns (oldestKey: string)
      requires store != []
      ensures oldestKey == Oldest(store).key
    {
      var best := store[0];
      for i := 1 to |store|
        invariant best == Oldest(store[..i])
      {
        OldestSnoc(store[..i], store[i]);
        assert store[..i + 1] == store[..i] + [store[i]];
        if store[i].value.resetAt < best.value.resetAt {
          best := store[i];
        }
      }
      assert store[..|store|] == store;
      oldestKey := best.key;
    }

    method DeleteExpired(now: int)
      requires Distinct(store)
      modifies this
      ensures store == DropExpired(old(store), now)
    {
      store := DeleteUnless(store, (w: Window) => now <= w.resetAt);
    }

    method CleanupExpiredEntries(now: int)
      requires Sound(store)
      modifies this
      ensures Sound(store) && store == DropExpired(old(store), now)
    {
      StepSound(store, Timed(now, Cleanup));
      DeleteExpired(now);
    }
  }

  lemma {:induction false} OldestSnoc(m: Store, e: Entry<Window>)
    requires m != []
    ensures Oldest(m + [e]) == if e.value.resetAt < Oldest(m).value.resetAt then e else Oldest(m)
  {
    assert (m + [e])[1..] == m[1..] + [e];
    if |m| > 1 {
      OldestSnoc(m[1..], e);
    }
  }
}
