/**
 * Failed-login throttling (backend/src/middleware/login-attempts.ts). Each login attempt asks
 * `getLoginBlock` and, when not blocked, records a failure, clears the key, or does neither,
 * before the next attempt. The clock is a parameter.
 */
module LoginThrottle {
  import opened Options
  import opened OrderedMap

  const LOGIN_WINDOW_MS: int := 15 * 60 * 1000
  const LOGIN_MAX_FAILURES: nat := 10
  const LOGIN_BLOCK_MS: int := 15 * 60 * 1000
  const MAX_ENTRIES: nat := 10_000

  datatype Attempts = Attempts(failures: nat, windowStart: int, blockedUntil: int)

  type Store = seq<Entry<Attempts>>

  datatype LoginBlock = NotBlocked | Blocked(retryAfterSeconds: int)

  function AttemptKey(ip: string, email: string): string {
    ip + "|" + email
  }

  /** No other pair has the key of these exactly when neither holds a bar. */
  lemma KeyIsOwnExactly(ip: string, email: string)
    ensures (forall ip', email' | AttemptKey(ip', email') == AttemptKey(ip, email) :: ip' == ip && email' == email)
            <==> '|' !in ip && '|' !in email
  {
    var k := AttemptKey(ip, email);
    if i :| 0 <= i < |ip| && ip[i] == '|' {
      assert AttemptKey(ip[..i], ip[i + 1..] + "|" + email) == k;
    } else if i :| 0 <= i < |email| && email[i] == '|' {
      assert AttemptKey(ip + "|" + email[..i], email[i + 1..]) == k;
    } else {
      forall ip', email' | AttemptKey(ip', email') == k ensures ip' == ip && email' == email {
        assert forall i | 0 <= i < |k| && i != |ip| :: k[i] != '|';
        assert AttemptKey(ip', email')[|ip'|] == '|';
        assert ip' == k[..|ip'|] && ip == k[..|ip|];
        assert email' == k[|ip'| + 1..] && email == k[|ip| + 1..];
      }
    }
  }

  /** Insertion order evicts the oldest keys first. */
  function Evict(m: Store): Store {
    if |m| <= MAX_ENTRIES then m else m[|m| - MAX_ENTRIES..]
  }

  function RetryAfter(blockedUntil: int, now: int): int {
    var seconds := (blockedUntil - now + 999) / 1000;
    if seconds < 1 then 1 else seconds
  }

  function Check(m: Store, k: string, now: int): LoginBlock {
    var e := Get(m, k);
    if e.Some? && e.value.blockedUntil > now then Blocked(RetryAfter(e.value.blockedUntil, now)) else NotBlocked
  }

  /** An entry that a failure at `now` would still count in. */
  predicate Counting(a: Attempts, now: int) {
    a.blockedUntil <= 0 && now - a.windowStart <= LOGIN_WINDOW_MS
  }

  /** The store after `getLoginBlock`: an entry that neither blocks nor counts is dropped. */
  function AfterCheck(m: Store, k: string, now: int): Store {
    var e := Get(m, k);
    if e.Some? && e.value.blockedUntil <= now && !Counting(e.value, now) then Remove(m, k) else m
  }

  function Record(m: Store, k: string, now: int): Store {
    var e := Get(m, k);
    if e.None? || !Counting(e.value, now) then Evict(Put(m, k, Attempts(1, now, 0)))
    else
      var failures := e.value.failures + 1;
      Put(m, k, Attempts(failures, e.value.windowStart,
                         if failures >= LOGIN_MAX_FAILURES then now + LOGIN_BLOCK_MS else e.value.blockedUntil))
  }

  // ---------------------------------------------------------------------------
  // The class
  // ---------------------------------------------------------------------------

  class LoginAttempts {
    var attempts: Store

    constructor ()
      ensures attempts == []
    {
      attempts := [];
    }

    method GetLoginBlock(ip: string, email: string, now: int) returns (block: LoginBlock)
      modifies this
      ensures block == Check(old(attempts), AttemptKey(ip, email), now)
      ensures attempts == AfterCheck(old(attempts), AttemptKey(ip, email), now)
    {
      var key := AttemptKey(ip, email);
      var entry := Get(attempts, key);
      if entry.None? { return NotBlocked; }
      if entry.value.blockedUntil > now {
        return Blocked(RetryAfter(entry.value.blockedUntil, now));
      }
      if entry.value.blockedUntil > 0 || now - entry.value.windowStart > LOGIN_WINDOW_MS {
        attempts := Remove(attempts, key);
      }
      block := NotBlocked;
    }

    method RecordLoginFailure(ip: string, email: string, now: int)
      requires Distinct(attempts)
      modifies this
      ensures attempts == Record(old(attempts), AttemptKey(ip, email), now)
    {
      var key := AttemptKey(ip, email);
      var entry := Get(attempts, key);
      if entry.None? || entry.value.blockedUntil > 0 || now - entry.value.windowStart > LOGIN_WINDOW_MS {
        PutDistinct(attempts, key, Attempts(1, now, 0));
        attempts := Put(attempts, key, Attempts(1, now, 0));
        EvictIfNeeded();
        return;
      }
      var failures := entry.value.failures + 1;
      var blockedUntil := entry.value.blockedUntil;
      if failures >= LOGIN_MAX_FAILURES {
        blockedUntil := now + LOGIN_BLOCK_MS;
      }
      attempts := Put(attempts, key, Attempts(failures, entry.value.windowStart, blockedUntil));
    }

    method ClearLoginFailures(ip: string, email: string)
      modifies this
      ensures attempts == Remove(old(attempts), AttemptKey(ip, email))
    {
      attempts := Remove(attempts, AttemptKey(ip, email));
    }

    method EvictIfNeeded()
      requires Distinct(attempts)
      modifies this
      ensures attempts == Evict(old(attempts))
    {
      if |attempts| <= MAX_ENTRIES { return; }
      var keys := attempts;
      var excess := |attempts| - MAX_ENTRIES;
      var n := 0;
      while n < |keys|
        invariant 0 <= n && n + excess == |keys| - MAX_ENTRIES && excess > 0
        invariant attempts == keys[n..]
      {
        assert keys[n..][0] == keys[n] && keys[n..][1..] == keys[n + 1..];
        attempts := Remove(attempts, keys[n].key);
        n := n + 1;
        excess := excess - 1;
        if excess <= 0 { return; }
      }
    }
  }

  // ---------------------------------------------------------------------------
  // Sequential runs
  // ---------------------------------------------------------------------------

  /** How an attempt that was let through ends: wrong credentials, a login, or a disabled account. */
  datatype Outcome = Failure | Success | Neither

  datatype Attempt = Attempt(at: int, key: string, outcome: Outcome)

  function Step(m: Store, a: Attempt): Store {
    if Check(m, a.key, a.at).Blocked? then m
    else
      var m' := AfterCheck(m, a.key, a.at);
      match a.outcome
      case Failure => Record(m', a.key, a.at)
      case Success => Remove(m', a.key)
      case Neither => m'
  }

  ghost predicate Chronological(run: seq<Attempt>) {
    && (forall i | 0 <= i < |run| :: run[i].at >= 0)
    && (forall i, j | 0 <= i <= j < |run| :: run[i].at <= run[j].at)
  }

  function After(run: seq<Attempt>, n: nat): Store
    requires n <= |run|
  {
    if n == 0 then [] else Step(After(run, n - 1), run[n - 1])
  }

  ghost predicate Sound(m: Store) {
    Distinct(m) && |m| <= MAX_ENTRIES
  }

  lemma {:induction false} DropFrontLaws(m: Store, n: nat, k: string)
    requires Distinct(m) && n <= |m|
    ensures Distinct(m[n..])
    ensures Has(m[n..], k) ==> Get(m[n..], k) == Get(m, k)
  {
    assert m == m[..n] + m[n..];
    DistinctAppend(m[..n], m[n..]);
    GetAppend(m[..n], m[n..], k);
    if Has(m[..n], k) {
      GetEntry(m[..n], k);
    }
  }

  /** Recording keeps the cap, never evicts the key it records, and changes no key it keeps. */
  lemma RecordLaws(m: Store, k: string, now: int, other: string)
    requires Sound(m)
    ensures Sound(Record(m, k, now)) && Has(Record(m, k, now), k)
    ensures other != k && Has(Record(m, k, now), other) ==> Get(Record(m, k, now), other) == Get(m, other)
    ensures Get(Record(m, k, now), k)
            == Some(var e := Get(m, k);
                    if e.None? || !Counting(e.value, now) then Attempts(1, now, 0)
                    else Attempts(e.value.failures + 1, e.value.windowStart,
                                  if e.value.failures + 1 >= LOGIN_MAX_FAILURES then now + LOGIN_BLOCK_MS
                                  else e.value.blockedUntil))
  {
    var e := Get(m, k);
    if e.None? || !Counting(e.value, now) {
      OpenLaws(m, k, Attempts(1, now, 0), other);
    } else {
      var failures := e.value.failures + 1;
      var a := Attempts(failures, e.value.windowStart,
                        if failures >= LOGIN_MAX_FAILURES then now + LOGIN_BLOCK_MS else e.value.blockedUntil);
      PutDistinct(m, k, a);
      PutLaws(m, k, a, k);
      PutLaws(m, k, a, other);
    }
  }

  lemma OpenLaws(m: Store, k: string, a: Attempts, other: string)
    requires Sound(m)
    ensures Sound(Evict(Put(m, k, a))) && Get(Evict(Put(m, k, a)), k) == Some(a)
    ensures other != k && Has(Evict(Put(m, k, a)), other) ==> Get(Evict(Put(m, k, a)), other) == Get(m, other)
  {
    hide Get, Distinct;
    var put := Put(m, k, a);
    PutDistinct(m, k, a);
    PutLaws(m, k, a, k);
    PutLaws(m, k, a, other);
    if |put| > MAX_ENTRIES {
      assert put == m + [Entry(k, a)];
      DropFrontLaws(put, 1, k);
      DropFrontLaws(put, 1, other);
      assert put[1..][|put[1..]| - 1] == Entry(k, a);
      EntryHas(put[1..], Entry(k, a));
    }
  }

  /** Recording pushes out at most one key: the oldest of a full map, for a key that is new to it. */
  lemma OldestGoes(m: Store, k: string, now: int, other: string)
    requires Sound(m)
    ensures Has(m, other) && !Has(Record(m, k, now), other) <==>
            other != k && |m| == MAX_ENTRIES && !Has(m, k) && m[0].key == other
  {
    hide Get, Distinct;
    var e := Get(m, k);
    if e.None? || !Counting(e.value, now) {
      var a := Attempts(1, now, 0);
      var put := Put(m, k, a);
      PutDistinct(m, k, a);
      PutLaws(m, k, a, other);
      if |put| > MAX_ENTRIES {
        FirstOnly(put, other);
        PutFirst(m, k, a);
      }
      if m != [] { EntryHas(m, m[0]); }
    } else {
      RecordLaws(m, k, now, other);
      var failures := e.value.failures + 1;
      PutLaws(m, k, Attempts(failures, e.value.windowStart,
                             if failures >= LOGIN_MAX_FAILURES then now + LOGIN_BLOCK_MS else e.value.blockedUntil), other);
    }
  }

  lemma PutFirst(m: Store, k: string, a: Attempts)
    ensures m != [] ==> Put(m, k, a)[0].key == m[0].key
  {
  }

  lemma FirstOnly(m: Store, other: string)
    requires Distinct(m) && m != []
    ensures Has(m[1..], other) <==> Has(m, other) && m[0].key != other
  {
  }

  lemma CheckLaws(m: Store, k: string, now: int, other: string)
    requires Sound(m)
    ensures Sound(AfterCheck(m, k, now))
    ensures other != k ==> Get(AfterCheck(m, k, now), other) == Get(m, other)
    ensures var e := Get(m, k);
            Get(AfterCheck(m, k, now), k)
            == if e.Some? && e.value.blockedUntil <= now && !Counting(e.value, now) then None else e
  {
    RemoveDistinct(m, k);
    RemoveLaws(m, k, other);
    RemoveLaws(m, k, k);
  }

  lemma StepSound(m: Store, a: Attempt)
    requires Sound(m)
    ensures Sound(Step(m, a))
  {
    hide Record, AfterCheck, Check;
    var m' := AfterCheck(m, a.key, a.at);
    CheckLaws(m, a.key, a.at, a.key);
    RecordLaws(m', a.key, a.at, a.key);
    RemoveDistinct(m', a.key);
    RemoveLaws(m', a.key, a.key);
  }

  lemma {:induction false} RunSound(run: seq<Attempt>, n: nat)
    requires n <= |run|
    ensures Sound(After(run, n))
  {
    hide Step;
    if n > 0 {
      RunSound(run, n - 1);
      StepSound(After(run, n - 1), run[n - 1]);
    }
  }

  // ---------------------------------------------------------------------------
  // The reference: failures grouped into windows
  // ---------------------------------------------------------------------------

  /** A window of recorded failures: when it opened, how many it holds, and the last one's time. */
  datatype Group = Group(start: int, count: nat, last: int)

  /** Refused from the tenth failure of a window until exactly fifteen minutes after it. */
  predicate Refused(g: Option<Group>, now: int) {
    g.Some? && g.value.count == LOGIN_MAX_FAILURES && now < g.value.last + LOGIN_BLOCK_MS
  }

  function GroupStep(g: Option<Group>, a: Attempt): Option<Group> {
    if Refused(g, a.at) then g
    else
      match a.outcome
      case Neither => g
      case Success => None
      case Failure =>
        if g.None? || g.value.count == LOGIN_MAX_FAILURES || a.at - g.value.start > LOGIN_WINDOW_MS
        then Some(Group(a.at, 1, a.at))
        else Some(Group(g.value.start, g.value.count + 1, a.at))
  }

  /** The current window of `k` after `n` attempts. */
  function GroupAfter(run: seq<Attempt>, n: nat, k: string): Option<Group>
    requires n <= |run|
  {
    if n == 0 then None
    else
      var g := GroupAfter(run, n - 1, k);
      if run[n - 1].key == k then GroupStep(g, run[n - 1]) else g
  }

  ghost predicate GroupOk(g: Option<Group>, now: int) {
    g.Some? ==> 1 <= g.value.count <= LOGIN_MAX_FAILURES && 0 <= g.value.start <= g.value.last <= now
  }

  /** The entry the store should act on at `now`. */
  function Expected(g: Option<Group>, now: int): Option<Attempts> {
    if g.None? then None
    else if g.value.count == LOGIN_MAX_FAILURES then
      if now < g.value.last + LOGIN_BLOCK_MS
      then Some(Attempts(g.value.count, g.value.start, g.value.last + LOGIN_BLOCK_MS)) else None
    else if now - g.value.start > LOGIN_WINDOW_MS then None
    else Some(Attempts(g.value.count, g.value.start, 0))
  }

  /** The entry of `k` that still blocks or counts at `now`. */
  function Effective(m: Store, k: string, now: int): Option<Attempts> {
    var e := Get(m, k);
    if e.Some? && e.value.blockedUntil <= now && !Counting(e.value, now) then None else e
  }

  /** No attempt on another key pushes the entry of `k` out. */
  ghost predicate NeverEvicted(run: seq<Attempt>, k: string) {
    forall i | 0 <= i < |run| && run[i].key != k && Has(After(run, i), k) :: Has(After(run, i + 1), k)
  }

  lemma OtherStep(m: Store, a: Attempt, k: string, later: int)
    requires Sound(m) && a.key != k && (Has(m, k) ==> Has(Step(m, a), k))
    ensures Effective(Step(m, a), k, later) == Effective(m, k, later)
  {
    hide Record, AfterCheck, Check, Get;
    var m' := AfterCheck(m, a.key, a.at);
    CheckLaws(m, a.key, a.at, k);
    RecordLaws(m', a.key, a.at, k);
    RemoveLaws(m', a.key, k);
  }

  /** Expected entries at a later time follow from expected entries now. */
  lemma ExpectedLater(m: Store, k: string, g: Option<Group>, now: int, later: int)
    requires GroupOk(g, now) && Effective(m, k, now) == Expected(g, now) && now <= later
    ensures Effective(m, k, later) == Expected(g, later)
  {
  }

  lemma GroupStepOk(g: Option<Group>, a: Attempt, now: int)
    requires GroupOk(g, now) && now <= a.at && 0 <= a.at
    ensures GroupOk(GroupStep(g, a), a.at)
  {
  }

  /** One attempt on `k`: the store follows the reference. */
  lemma OwnStep(m: Store, a: Attempt, g: Option<Group>)
    requires Sound(m) && GroupOk(g, a.at) && 0 <= a.at
    requires Effective(m, a.key, a.at) == Expected(g, a.at)
    ensures Effective(Step(m, a), a.key, a.at) == Expected(GroupStep(g, a), a.at)
  {
    hide Record, AfterCheck, Get;
    var m' := AfterCheck(m, a.key, a.at);
    CheckLaws(m, a.key, a.at, a.key);
    RecordLaws(m', a.key, a.at, a.key);
    RemoveLaws(m', a.key, a.key);
  }

  lemma {:induction false} StoreFollowsGroups(run: seq<Attempt>, n: nat, k: string, now: int)
    requires Chronological(run) && NeverEvicted(run, k) && n <= |run|
    requires n > 0 ==> run[n - 1].at <= now
    ensures GroupOk(GroupAfter(run, n, k), now)
    ensures Effective(After(run, n), k, now) == Expected(GroupAfter(run, n, k), now)
    decreases n
  {
    hide Step, Effective, Expected, GroupStep;
    if n == 0 {
      NothingYet(k, now);
    } else {
      var m, a, g := After(run, n - 1), run[n - 1], GroupAfter(run, n - 1, k);
      RunSound(run, n - 1);
      StoreFollowsGroups(run, n - 1, k, a.at);
      if a.key == k {
        OwnStep(m, a, g);
        GroupStepOk(g, a, a.at);
        ExpectedLater(Step(m, a), k, GroupStep(g, a), a.at, now);
      } else {
        assert Has(After(run, n - 1), k) ==> Has(After(run, n), k);
        OtherStep(m, a, k, now);
        ExpectedLater(m, k, g, a.at, now);
      }
    }
  }

  lemma NothingYet(k: string, now: int)
    ensures Effective([], k, now) == None && Expected(None, now) == None
  {
  }

  /**
   * The block: for a key not evicted, `getLoginBlock` refuses exactly from the tenth failure of
   * a window until fifteen minutes after it, and the retry value is the least whole number of
   * seconds that reaches the end.
   */
  lemma BlockedExactly(run: seq<Attempt>, n: nat, k: string, now: int)
    requires Chronological(run) && NeverEvicted(run, k) && n <= |run|
    requires n > 0 ==> run[n - 1].at <= now
    ensures var g := GroupAfter(run, n, k); var block := Check(After(run, n), k, now);
            && (block.Blocked? <==> Refused(g, now))
            && (block.Blocked? ==>
                  var end := g.value.last + LOGIN_BLOCK_MS;
                  forall r :: r >= block.retryAfterSeconds <==> now + 1000 * r >= end)
  {
    hide After, GroupAfter, Get;
    StoreFollowsGroups(run, n, k, now);
  }

  // ---------------------------------------------------------------------------
  // Other clients are invisible
  // ---------------------------------------------------------------------------

  /** Of the first `n` attempts those on `k`. */
  function Own(run: seq<Attempt>, n: nat, k: string): seq<Attempt>
    requires n <= |run|
  {
    if n == 0 then [] else Own(run, n - 1, k) + if run[n - 1].key == k then [run[n - 1]] else []
  }

  ghost predicate OwnSoFar(own: seq<Attempt>, k: string, now: int) {
    Chronological(own) && forall a <- own :: a.key == k && a.at <= now
  }

  lemma OwnNext(own: seq<Attempt>, k: string, now: int, a: Attempt)
    requires OwnSoFar(own, k, now) && a.key == k && now <= a.at && 0 <= a.at
    ensures OwnSoFar(own + [a], k, a.at)
  {
    assert forall i | 0 <= i < |own| :: own[i] in own;
  }

  lemma OwnGroup(own: seq<Attempt>, a: Attempt, k: string)
    requires a.key == k
    ensures GroupAfter(own + [a], |own| + 1, k) == GroupStep(GroupAfter(own, |own|, k), a)
  {
    hide GroupStep;
    GroupPrefix(own, [a], |own|, k);
  }

  function LastTime(run: seq<Attempt>, n: nat): int
    requires n <= |run|
  {
    if n == 0 then 0 else run[n - 1].at
  }

  lemma TimesGrow(run: seq<Attempt>, n: nat)
    requires Chronological(run) && n < |run|
    ensures 0 <= run[n].at && LastTime(run, n) <= run[n].at
  {
  }

  lemma OwnUnfold(run: seq<Attempt>, n: nat, k: string)
    requires n < |run|
    ensures Own(run, n + 1, k) == if run[n].key == k then Own(run, n, k) + [run[n]] else Own(run, n, k)
    ensures GroupAfter(run, n + 1, k)
            == if run[n].key == k then GroupStep(GroupAfter(run, n, k), run[n]) else GroupAfter(run, n, k)
  {
    assert Own(run, n, k) + [] == Own(run, n, k);
  }

  lemma OwnNone(run: seq<Attempt>, k: string)
    ensures Own(run, 0, k) == [] && OwnSoFar([], k, 0) && GroupAfter(run, 0, k) == GroupAfter([], 0, k)
  {
  }

  lemma {:induction false} OwnLaws(run: seq<Attempt>, n: nat, k: string)
    requires Chronological(run) && n <= |run|
    ensures var own := Own(run, n, k);
            && OwnSoFar(own, k, LastTime(run, n))
            && GroupAfter(own, |own|, k) == GroupAfter(run, n, k)
    decreases n
  {
    hide GroupStep, GroupAfter, Own, OwnSoFar, Chronological;
    if n == 0 {
      OwnNone(run, k);
    } else {
      OwnLaws(run, n - 1, k);
      TimesGrow(run, n - 1);
      OwnUnfold(run, n - 1, k);
      var own, a := Own(run, n - 1, k), run[n - 1];
      if a.key == k {
        OwnNext(own, k, LastTime(run, n - 1), a);
        OwnGroup(own, a, k);
      } else {
        OwnLater(own, k, LastTime(run, n - 1), a.at);
      }
    }
  }

  lemma OwnLater(own: seq<Attempt>, k: string, now: int, later: int)
    requires OwnSoFar(own, k, now) && now <= later
    ensures OwnSoFar(own, k, later)
  {
  }

  lemma {:induction false} GroupPrefix(a: seq<Attempt>, b: seq<Attempt>, n: nat, k: string)
    requires n <= |a|
    ensures GroupAfter(a + b, n, k) == GroupAfter(a, n, k)
  {
    hide GroupStep;
    if n > 0 { GroupPrefix(a, b, n - 1, k); }
  }

  /** The block of a key never evicted is the one it would meet if no one else had tried. */
  lemma OthersInvisible(run: seq<Attempt>, n: nat, k: string, now: int)
    requires Chronological(run) && NeverEvicted(run, k) && n <= |run|
    requires n > 0 ==> run[n - 1].at <= now
    ensures var own := Own(run, n, k); Check(After(run, n), k, now) == Check(After(own, |own|), k, now)
  {
    hide After, GroupAfter, Get;
    var own := Own(run, n, k);
    OwnLaws(run, n, k);
    assert forall i | 0 <= i < |own| :: own[i] in own;
    StoreFollowsGroups(run, n, k, now);
    StoreFollowsGroups(own, |own|, k, now);
  }

  // ---------------------------------------------------------------------------
  // At most eighteen failures in any fifteen minutes
  // ---------------------------------------------------------------------------

  /** A failure for `k` that is recorded, within `[lo, hi)`. */
  predicate RecordedIn(m: Store, a: Attempt, k: string, lo: int, hi: int) {
    a.key == k && a.outcome == Failure && lo <= a.at < hi && !Check(m, k, a.at).Blocked?
  }

  function RecordedCount(run: seq<Attempt>, i: nat, k: string, lo: int, hi: int): nat
    requires i <= |run|
    decreases |run| - i
  {
    if i == |run| then 0
    else (if RecordedIn(After(run, i), run[i], k, lo, hi) then 1 else 0) + RecordedCount(run, i + 1, k, lo, hi)
  }

  /** How many failures may still be recorded in `[lo, lo + LOGIN_WINDOW_MS)` from time `now` on. */
  function Allowance(g: Option<Group>, now: int, lo: int): nat
    requires GroupOk(g, now)
  {
    var hi := lo + LOGIN_WINDOW_MS;
    if now >= hi then 0
    else if g.None? then if now >= lo then 10 else 18
    else if g.value.count == LOGIN_MAX_FAILURES then
      var end := g.value.last + LOGIN_BLOCK_MS;
      if end >= hi then 0 else if end >= lo || now >= lo then 10 else 18
    else if g.value.start >= lo then 10 - g.value.count
    else if g.value.start + LOGIN_WINDOW_MS < lo then if now >= lo then 10 else 18
    else if now > g.value.start + LOGIN_WINDOW_MS then 10
    else 19 - g.value.count
  }

  lemma AllowanceLater(g: Option<Group>, now: int, later: int, lo: int)
    requires GroupOk(g, now) && now <= later
    ensures Allowance(g, later, lo) <= Allowance(g, now, lo)
  {
  }

  lemma AllowanceSpent(g: Option<Group>, a: Attempt, lo: int)
    requires GroupOk(g, a.at) && 0 <= a.at && a.outcome != Success
    ensures GroupOk(GroupStep(g, a), a.at)
    ensures Allowance(GroupStep(g, a), a.at, lo)
            + (if a.outcome == Failure && lo <= a.at < lo + LOGIN_WINDOW_MS && !Refused(g, a.at) then 1 else 0)
            <= Allowance(g, a.at, lo)
  {
  }

  ghost predicate NoSuccess(run: seq<Attempt>, k: string) {
    forall i | 0 <= i < |run| && run[i].key == k :: run[i].outcome != Success
  }

  lemma {:induction false} RecordedWithinAllowance(run: seq<Attempt>, i: nat, k: string, lo: int)
    requires Chronological(run) && NeverEvicted(run, k) && NoSuccess(run, k) && i < |run|
    ensures GroupOk(GroupAfter(run, i, k), run[i].at)
    ensures RecordedCount(run, i, k, lo, lo + LOGIN_WINDOW_MS) <= Allowance(GroupAfter(run, i, k), run[i].at, lo)
    decreases |run| - i
  {
    hide After, Allowance, GroupStep, GroupOk, Check, Refused;
    var a, g := run[i], GroupAfter(run, i, k);
    StoreFollowsGroups(run, i, k, a.at);
    BlockedExactly(run, i, k, a.at);
    if a.key == k {
      AllowanceSpent(g, a, lo);
    }
    if i + 1 < |run| {
      RecordedWithinAllowance(run, i + 1, k, lo);
      AllowanceLater(GroupAfter(run, i + 1, k), a.at, run[i + 1].at, lo);
    } else {
      assert RecordedCount(run, i + 1, k, lo, lo + LOGIN_WINDOW_MS) == 0;
    }
  }

  /** For a key with no login and no eviction, any half-open fifteen minutes hold at most 18 failures. */
  lemma AtMostEighteen(run: seq<Attempt>, k: string, lo: int)
    requires Chronological(run) && NeverEvicted(run, k) && NoSuccess(run, k)
    ensures RecordedCount(run, 0, k, lo, lo + LOGIN_WINDOW_MS) <= 18
  {
    if run != [] {
      RecordedWithinAllowance(run, 0, k, lo);
    }
  }

  // ---------------------------------------------------------------------------
  // Eighteen is reached
  // ---------------------------------------------------------------------------

  /** One failure, eight more as its window ends, and ten a millisecond later. */
  function BusyRun(k: string): seq<Attempt> {
    seq(19, i => Attempt(if i == 0 then 0 else if i < 9 then LOGIN_WINDOW_MS else LOGIN_WINDOW_MS + 1, k, Failure))
  }

  lemma {:induction false} BusyGroups(k: string, n: nat)
    requires n <= 19
    ensures GroupAfter(BusyRun(k), n, k)
            == if n == 0 then None
               else if n == 1 then Some(Group(0, 1, 0))
               else if n <= 9 then Some(Group(0, n, LOGIN_WINDOW_MS))
               else Some(Group(LOGIN_WINDOW_MS + 1, n - 9, LOGIN_WINDOW_MS + 1))
  {
    if n > 0 {
      BusyGroups(k, n - 1);
    }
  }

  lemma {:induction false} BusyCount(k: string, i: nat)
    requires 1 <= i <= 19
    ensures RecordedCount(BusyRun(k), i, k, LOGIN_WINDOW_MS, 2 * LOGIN_WINDOW_MS) == 19 - i
    decreases 19 - i
  {
    hide After, Check, GroupAfter;
    if i < 19 {
      BusyCount(k, i + 1);
      BusyGroups(k, i);
      BlockedExactly(BusyRun(k), i, k, BusyRun(k)[i].at);
    }
  }

  /** The bound of eighteen is met, so no smaller one holds. */
  lemma EighteenReached(k: string)
    ensures Chronological(BusyRun(k)) && NeverEvicted(BusyRun(k), k) && NoSuccess(BusyRun(k), k)
    ensures RecordedCount(BusyRun(k), 0, k, LOGIN_WINDOW_MS, LOGIN_WINDOW_MS + LOGIN_WINDOW_MS) == 18
  {
    BusyCount(k, 1);
    assert !RecordedIn(After(BusyRun(k), 0), BusyRun(k)[0], k, LOGIN_WINDOW_MS, 2 * LOGIN_WINDOW_MS);
  }
}
