/**
 * Message handling of one WhatsApp session (whatsapp/src/baileys-session.ts): `onMessage` and
 * `rememberSelfSent` as steps over the de-duplication tracker. A call of `onMessage` runs up to
 * its next `await` in one step, so calls interleave only there.
 */
module MessageSession {
  import opened Options
  import opened OrderedMap
  import Dedupe = MessageDedupe

  const SELF_SENT_TTL_MS: int := 5 * 60 * 1000

  /** `webhookDedupeKey`. */
  function WebhookDedupeKey(fromMe: bool, id: string): string {
    (if fromMe then "message.outbound_mirror" else "message.inbound") + ":" + id
  }

  /** Different messages, or the two directions of one id, never share a key. */
  lemma KeysDiffer(fromMe: bool, id: string, fromMe': bool, id': string)
    ensures WebhookDedupeKey(fromMe, id) == WebhookDedupeKey(fromMe', id') <==> fromMe == fromMe' && id == id'
  {
    var k, k' := WebhookDedupeKey(fromMe, id), WebhookDedupeKey(fromMe', id');
    if k == k' {
      assert k[8] == (if fromMe then 'o' else 'i') && k'[8] == (if fromMe' then 'o' else 'i');
      assert id == k[|k| - |id|..];
      assert id' == k'[|k'| - |id'|..];
    }
  }

  /** Where a suspended call waits: for the event to be built, or for its delivery. */
  datatype Stage = Building | Delivering

  datatype Pending = Pending(key: string, stage: Stage)

  /** `calls` numbers the calls of `onMessage`; `pending` holds the suspended ones. */
  datatype Session = Session(
    tracker: Dedupe.State, selfSent: Dedupe.Times, calls: nat, pending: map<nat, Pending>)

  datatype Event =
    | Arrive(fromMe: bool, id: string)
    | Built(call: nat, ingestable: bool)
    | Delivered(call: nat)
    | Failed(call: nat)
    | SelfSent(id: string)

  function Waits(s: Session, call: nat, stage: Stage): bool {
    call in s.pending && s.pending[call].stage == stage
  }

  function MarkCall(s: Session, call: nat, now: int): Session
    requires call in s.pending
  {
    s.(tracker := Dedupe.Step(s.tracker, Dedupe.Mark(s.pending[call].key), now), pending := s.pending - {call})
  }

  /** A call whose message is taken on, not refused as a duplicate. */
  predicate TakenOn(s: Session, e: Event, now: int) {
    e.Arrive? && e.id != "" && Dedupe.Accepts(s.tracker, WebhookDedupeKey(e.fromMe, e.id), now)
  }

  /** The mirror of a message this session sent itself. */
  predicate Suppressed(s: Session, e: Event, now: int) {
    TakenOn(s, e, now) && e.fromMe && Has(s.selfSent, e.id)
  }

  function Step(s: Session, e: Event, now: int): Session {
    match e
    case Arrive(fromMe, id) =>
      var key := WebhookDedupeKey(fromMe, id);
      if id == "" then s
      else
        var t := Dedupe.Step(s.tracker, Dedupe.Acquire(key), now);
        if !TakenOn(s, e, now) then s.(tracker := t, calls := s.calls + 1)
        else if Suppressed(s, e, now) then
          s.(tracker := Dedupe.Step(t, Dedupe.Mark(key), now), selfSent := Remove(s.selfSent, id), calls := s.calls + 1)
        else s.(tracker := t, calls := s.calls + 1, pending := s.pending[s.calls := Pending(key, Building)])
    case Built(call, ingestable) =>
      if !Waits(s, call, Building) then s
      else if ingestable then s.(pending := s.pending[call := s.pending[call].(stage := Delivering)])
      else MarkCall(s, call, now)
    case Delivered(call) => if Waits(s, call, Delivering) then MarkCall(s, call, now) else s
    case Failed(call) =>
      if call !in s.pending then s
      else
        s.(tracker := Dedupe.Step(s.tracker, Dedupe.Release(s.pending[call].key), now), pending := s.pending - {call})
    case SelfSent(id) =>
      if id == "" then s
      else s.(selfSent := Dedupe.DropOld(Put(s.selfSent, id, now), now - SELF_SENT_TTL_MS))
  }

  /** The key whose webhook this step hands to `deliverEvent`. */
  function Posts(s: Session, e: Event): Option<string> {
    if e.Built? && e.ingestable && Waits(s, e.call, Building) then Some(s.pending[e.call].key) else None
  }

  /** The call whose acquired key this step marks or releases. */
  function Ends(s: Session, e: Event, now: int): Option<nat> {
    match e
    case Arrive(_, _) => if Suppressed(s, e, now) then Some(s.calls) else None
    case Built(call, ingestable) => if Waits(s, call, Building) && !ingestable then Some(call) else None
    case Delivered(call) => if Waits(s, call, Delivering) then Some(call) else None
    case Failed(call) => if call in s.pending then Some(call) else None
    case SelfSent(_) => None
  }

  // ---------------------------------------------------------------------------
  // What every interleaving keeps
  // ---------------------------------------------------------------------------

  /** In-flight and delivered keys are disjoint, and each in-flight key has exactly one owner. */
  ghost predicate Owned(s: Session) {
    && (forall k <- s.tracker.inflight :: !Has(s.tracker.delivered, k))
    && (forall k <- s.tracker.inflight :: exists c <- s.pending :: s.pending[c].key == k)
    && (forall c <- s.pending :: c < s.calls && s.pending[c].key in s.tracker.inflight)
    && (forall c, d | c in s.pending && d in s.pending && c != d :: s.pending[c].key != s.pending[d].key)
  }

  ghost predicate Inv(s: Session, now: int) {
    Dedupe.Sound(s.tracker, now) && Distinct(s.selfSent) && Owned(s)
  }

  /** A tracker step delivers nothing but the key it marks. */
  lemma NothingElseDelivered(t: Dedupe.State, op: Dedupe.Op, now: int, k: string)
    requires Distinct(t.delivered)
    ensures Has(Dedupe.Step(t, op, now).delivered, k) ==> Has(t.delivered, k) || op == Dedupe.Mark(k)
  {
    PutDistinct(t.delivered, op.key, now);
    PutLaws(t.delivered, op.key, now, k);
    Dedupe.SweepBounds(if op.Mark? then Put(t.delivered, op.key, now) else t.delivered, now, k);
  }

  lemma MarkOwned(s: Session, call: nat, now: int)
    requires Distinct(s.tracker.delivered) && Owned(s) && call in s.pending
    ensures Owned(MarkCall(s, call, now))
  {
    var s', key := MarkCall(s, call, now), s.pending[call].key;
    forall k <- s'.tracker.inflight
      ensures !Has(s'.tracker.delivered, k) && exists c <- s'.pending :: s'.pending[c].key == k
    {
      NothingElseDelivered(s.tracker, Dedupe.Mark(key), now, k);
      var c :| c in s.pending && s.pending[c].key == k;
      assert c in s'.pending;
    }
  }

  lemma ArriveOwned(s: Session, e: Event, now: int)
    requires e.Arrive? && Dedupe.Sound(s.tracker, now) && Owned(s)
    ensures Owned(Step(s, e, now))
  {
    hide Dedupe.Sweep, Has, WebhookDedupeKey;
    var s', key := Step(s, e, now), WebhookDedupeKey(e.fromMe, e.id);
    var t := Dedupe.Step(s.tracker, Dedupe.Acquire(key), now);
    if e.id != "" {
      Dedupe.StepSound(s.tracker, Dedupe.Acquire(key), now, now);
      forall k <- s'.tracker.inflight
        ensures !Has(s'.tracker.delivered, k) && exists c <- s'.pending :: s'.pending[c].key == k
      {
        NothingElseDelivered(s.tracker, Dedupe.Acquire(key), now, k);
        NothingElseDelivered(t, Dedupe.Mark(key), now, k);
        if k in s.tracker.inflight {
          var c :| c in s.pending && s.pending[c].key == k;
          assert c in s'.pending && s'.pending[c].key == k;
        } else {
          assert s'.pending[s.calls].key == k;
        }
      }
    }
  }

  lemma FailedOwned(s: Session, call: nat, now: int)
    requires Owned(s)
    ensures Owned(Step(s, Failed(call), now))
  {
    var s' := Step(s, Failed(call), now);
    forall k <- s'.tracker.inflight ensures exists c <- s'.pending :: s'.pending[c].key == k {
      var c :| c in s.pending && s.pending[c].key == k;
      assert c in s'.pending;
    }
  }

  lemma BuiltOwned(s: Session, call: nat)
    requires Owned(s) && Waits(s, call, Building)
    ensures Owned(s.(pending := s.pending[call := s.pending[call].(stage := Delivering)]))
  {
    var s' := s.(pending := s.pending[call := s.pending[call].(stage := Delivering)]);
    forall k <- s'.tracker.inflight ensures exists c <- s'.pending :: s'.pending[c].key == k {
      var c :| c in s.pending && s.pending[c].key == k;
      assert c in s'.pending && s'.pending[c].key == k;
    }
  }

  lemma StepSoundTracker(s: Session, e: Event, before: int, now: int)
    requires Dedupe.Sound(s.tracker, before) && before <= now
    ensures Dedupe.Sound(Step(s, e, now).tracker, now)
  {
    hide Dedupe.Step, Dedupe.Accepts, Has, WebhookDedupeKey;
    match e
    case Arrive(fromMe, id) =>
      var key := WebhookDedupeKey(fromMe, id);
      Dedupe.StepSound(s.tracker, Dedupe.Acquire(key), before, now);
      Dedupe.StepSound(Dedupe.Step(s.tracker, Dedupe.Acquire(key), now), Dedupe.Mark(key), now, now);
    case SelfSent(_) =>
    case _ =>
      if e.call in s.pending {
        Dedupe.StepSound(s.tracker, Dedupe.Mark(s.pending[e.call].key), before, now);
        Dedupe.StepSound(s.tracker, Dedupe.Release(s.pending[e.call].key), before, now);
      }
  }

  lemma SoundLater(t: Dedupe.State, before: int, now: int)
    requires Dedupe.Sound(t, before) && before <= now
    ensures Dedupe.Sound(t, now)
  {
  }

  lemma StepInv(s: Session, e: Event, before: int, now: int)
    requires Inv(s, before) && before <= now
    ensures Inv(Step(s, e, now), now)
  {
    hide Dedupe.Sound, Owned, Dedupe.Step, Dedupe.Accepts, Dedupe.DropOld, Distinct, Put, Remove, WebhookDedupeKey;
    SoundLater(s.tracker, before, now);
    SoundDistinct(s.tracker, now);
    StepSoundTracker(s, e, before, now);
    match e
    case Arrive(fromMe, id) =>
      RemoveDistinct(s.selfSent, id);
      ArriveOwned(s, e, now);
    case Built(call, ingestable) =>
      if Waits(s, call, Building) {
        MarkOwned(s, call, now);
        BuiltOwned(s, call);
      }
    case Delivered(call) =>
      if Waits(s, call, Delivering) { MarkOwned(s, call, now); }
    case Failed(call) => FailedOwned(s, call, now);
    case SelfSent(id) =>
      PutDistinct(s.selfSent, id, now);
      Dedupe.DropOldLaws(Put(s.selfSent, id, now), now - SELF_SENT_TTL_MS, id);
      OwnedIgnoresSelfSent(s, Step(s, e, now));
  }

  lemma SoundDistinct(t: Dedupe.State, now: int)
    requires Dedupe.Sound(t, now)
    ensures Distinct(t.delivered)
  {
  }

  lemma OwnedIgnoresSelfSent(s: Session, s': Session)
    requires Owned(s) && s' == s.(selfSent := s'.selfSent)
    ensures Owned(s')
  {
  }

  // ---------------------------------------------------------------------------
  // Whole runs
  // ---------------------------------------------------------------------------

  datatype Timed = Timed(at: int, event: Event)

  ghost predicate Chronological(run: seq<Timed>) {
    forall i, j | 0 <= i <= j < |run| :: run[i].at <= run[j].at
  }

  function After(run: seq<Timed>, n: nat): Session
    requires n <= |run|
  {
    if n == 0 then Session(Dedupe.State([], {}), [], 0, map[])
    else Step(After(run, n - 1), run[n - 1].event, run[n - 1].at)
  }

  lemma {:induction false} RunInv(run: seq<Timed>, n: nat, now: int)
    requires Chronological(run) && n <= |run|
    requires n > 0 ==> run[n - 1].at <= now
    ensures Inv(After(run, n), now)
  {
    if n > 0 {
      RunInv(run, n - 1, run[n - 1].at);
      StepInv(After(run, n - 1), run[n - 1].event, run[n - 1].at, now);
      StepInv(After(run, n - 1), run[n - 1].event, run[n - 1].at, run[n - 1].at);
      var s := After(run, n);
      SoundLater(s.tracker, run[n - 1].at, now);
    }
  }

  /** Call `c` was taken on within the first `n` steps. */
  predicate TakenWithin(run: seq<Timed>, n: nat, c: nat)
    requires n <= |run|
  {
    exists i {:trigger TakenOn(After(run, i), run[i].event, run[i].at)} | 0 <= i < n ::
      After(run, i).calls == c && TakenOn(After(run, i), run[i].event, run[i].at)
  }

  /** How many of the first `n` steps mark or release the key of call `c`. */
  function EndCount(run: seq<Timed>, n: nat, c: nat): nat
    requires n <= |run|
  {
    if n == 0 then 0
    else EndCount(run, n - 1, c) + if Ends(After(run, n - 1), run[n - 1].event, run[n - 1].at) == Some(c) then 1 else 0
  }

  lemma StepPending(s: Session, e: Event, now: int, c: nat)
    requires c >= s.calls ==> c !in s.pending
    ensures var s' := Step(s, e, now);
            && s.calls <= s'.calls <= s.calls + 1
            && (TakenOn(s, e, now) ==> s'.calls == s.calls + 1)
            && (c in s'.pending <==> Ends(s, e, now) != Some(c) && (c in s.pending || (TakenOn(s, e, now) && c == s.calls)))
            && (Ends(s, e, now) == Some(c) ==> c in s.pending || (TakenOn(s, e, now) && c == s.calls))
  {
    hide Dedupe.Accepts, Dedupe.Step, Has, WebhookDedupeKey, Remove, Put, Dedupe.DropOld;
  }

  /** Every accepted acquire ends in exactly one mark or release, or its call is still pending. */
  lemma {:induction false} EveryAcquireEndsOnce(run: seq<Timed>, n: nat, c: nat)
    requires Chronological(run) && n <= |run|
    ensures c in After(run, n).pending ==> TakenWithin(run, n, c)
    ensures TakenWithin(run, n, c) ==> c < After(run, n).calls
    ensures EndCount(run, n, c) == if TakenWithin(run, n, c) && c !in After(run, n).pending then 1 else 0
  {
    if n > 0 {
      var s, e, now := After(run, n - 1), run[n - 1].event, run[n - 1].at;
      EveryAcquireEndsOnce(run, n - 1, c);
      StepPending(s, e, now, c);
      assert TakenWithin(run, n, c) <==> TakenWithin(run, n - 1, c) || (s.calls == c && TakenOn(s, e, now)) by {
        if TakenWithin(run, n - 1, c) {
          var i :| 0 <= i < n - 1 && After(run, i).calls == c && TakenOn(After(run, i), run[i].event, run[i].at);
          assert 0 <= i < n;
        }
      }
    }
  }

  // ---------------------------------------------------------------------------
  // No webhook twice
  // ---------------------------------------------------------------------------

  /** The key needs no further webhook: it is remembered, or its only owner already posted it. */
  ghost predicate Settled(s: Session, k: string) {
    || Has(s.tracker.delivered, k)
    || exists c <- s.pending :: s.pending[c] == Pending(k, Delivering)
  }

  ghost predicate OwnerFails(s: Session, e: Event, k: string) {
    e.Failed? && e.call in s.pending && s.pending[e.call].key == k
  }

  /** The two ways out: the owner fails and releases the key, or a sweep drops it. */
  ghost predicate Unsettles(s: Session, e: Event, now: int, k: string) {
    || OwnerFails(s, e, k)
    || (Has(s.tracker.delivered, k) && !Has(Step(s, e, now).tracker.delivered, k))
  }

  lemma SettledPostsNothing(s: Session, e: Event, now: int, k: string)
    requires Inv(s, now) && Settled(s, k)
    ensures Posts(s, e) != Some(k)
  {
  }

  lemma MarkSettles(s: Session, call: nat, now: int)
    requires Dedupe.Sound(s.tracker, now) && call in s.pending
    ensures Settled(MarkCall(s, call, now), s.pending[call].key)
  {
    Dedupe.MarkSurvives(s.tracker, s.pending[call].key, now, now);
  }

  lemma SettledStep(s: Session, e: Event, now: int, k: string)
    requires Inv(s, now) && Settled(s, k) && !Unsettles(s, e, now, k)
    ensures Settled(Step(s, e, now), k)
  {
    hide Has, Dedupe.Sound, Dedupe.Step, Dedupe.Accepts, Owned, WebhookDedupeKey, Remove, Put, Dedupe.DropOld;
    if !Has(s.tracker.delivered, k) {
      var c :| c in s.pending && s.pending[c] == Pending(k, Delivering);
      PendingIsOld(s, c);
      if e == Delivered(c) {
        MarkSettles(s, c, now);
      } else {
        assert Step(s, e, now).pending[c] == s.pending[c];
      }
    }
  }

  lemma PendingIsOld(s: Session, c: nat)
    requires Owned(s) && c in s.pending
    ensures c < s.calls
  {
  }

  /** Once settled, a key is posted again only after something unsettled it. */
  lemma {:induction false} PostedOnlyAfterUnsettled(run: seq<Timed>, i: nat, j: nat, k: string)
    requires Chronological(run) && i <= j < |run|
    requires Settled(After(run, i), k) && Posts(After(run, j), run[j].event) == Some(k)
    ensures exists m {:trigger Unsettles(After(run, m), run[m].event, run[m].at, k)} | i <= m < j ::
              Unsettles(After(run, m), run[m].event, run[m].at, k)
    decreases j - i
  {
    hide Posts, Settled, Unsettles, Step, Inv;
    var s := After(run, i);
    RunInvAt(run, i);
    SettledPostsNothing(s, run[i].event, run[i].at, k);
    if !Unsettles(s, run[i].event, run[i].at, k) {
      SettledStep(s, run[i].event, run[i].at, k);
      AfterNext(run, i);
      PostedOnlyAfterUnsettled(run, i + 1, j, k);
    } else if i == j {
      assert false;
    }
  }

  lemma RunInvAt(run: seq<Timed>, i: nat)
    requires Chronological(run) && i < |run|
    ensures Inv(After(run, i), run[i].at)
  {
    RunInv(run, i, run[i].at);
  }

  ghost predicate Lapses(s: Session, e: Event, now: int, k: string) {
    OwnerFails(s, e, k) || MayForget(s, now, k)
  }

  /** A step between `i` and `j` at which the owner of `k` fails or the tracker may forget `k`. */
  ghost predicate LapsedBetween(run: seq<Timed>, i: nat, j: nat, k: string)
    requires j <= |run|
  {
    exists m {:trigger Lapses(After(run, m), run[m].event, run[m].at, k)} | i < m < j ::
      Lapses(After(run, m), run[m].event, run[m].at, k)
  }

  lemma UnsettledLapsed(run: seq<Timed>, i: nat, j: nat, k: string)
    requires Chronological(run) && j <= |run|
    requires exists m {:trigger Unsettles(After(run, m), run[m].event, run[m].at, k)} | i < m < j ::
               Unsettles(After(run, m), run[m].event, run[m].at, k)
    ensures LapsedBetween(run, i, j, k)
  {
    hide After, Unsettles, OwnerFails, MayForget, Inv;
    var m :| i < m < j && Unsettles(After(run, m), run[m].event, run[m].at, k);
    RunInvAt(run, m);
    UnsettlingReason(After(run, m), run[m].event, run[m].at, k);
    assert Lapses(After(run, m), run[m].event, run[m].at, k);
  }

  /**
   * A webhook is handed over twice for one message only if, in between, its handler failed, or
   * its mark grew over seven days old, or a full map held no older marks.
   */
  lemma {:induction false} NoWebhookTwice(run: seq<Timed>, i: nat, j: nat, k: string)
    requires Chronological(run) && i < j < |run|
    requires Posts(After(run, i), run[i].event) == Some(k) && Posts(After(run, j), run[j].event) == Some(k)
    ensures LapsedBetween(run, i, j, k)
  {
    hide After, Posts, Settled, Unsettles, Step, LapsedBetween;
    AfterNext(run, i);
    PostSettles(After(run, i), run[i].event, run[i].at, k);
    PostedOnlyAfterUnsettled(run, i + 1, j, k);
    UnsettledLapsed(run, i, j, k);
  }

  lemma AfterNext(run: seq<Timed>, i: nat)
    requires i < |run|
    ensures After(run, i + 1) == Step(After(run, i), run[i].event, run[i].at)
  {
  }

  lemma PostSettles(s: Session, e: Event, now: int, k: string)
    requires Posts(s, e) == Some(k)
    ensures Settled(Step(s, e, now), k)
  {
    assert Step(s, e, now).pending[e.call] == Pending(k, Delivering);
  }

  /** Why a step may forget a delivered key: it is over seven days old, or a full map is no older. */
  ghost predicate MayForget(s: Session, now: int, k: string) {
    Has(s.tracker.delivered, k) &&
    var m, t := s.tracker.delivered, Get(s.tracker.delivered, k).value;
    || t < now - Dedupe.DEDUPE_TTL_MS
    || Dedupe.CapacityHeld(m, k, t)
    || exists key :: Dedupe.CapacityHeld(Put(m, key, now), k, t)
  }

  /** What can unsettle a key: its owner's failure, its age, or a full map of keys no older. */
  lemma UnsettlingReason(s: Session, e: Event, now: int, k: string)
    requires Inv(s, now) && Unsettles(s, e, now, k)
    ensures OwnerFails(s, e, k) || MayForget(s, now, k)
  {
    hide Get, Dedupe.Sweep, Dedupe.Sound, Put, WebhookDedupeKey, Dedupe.CapacityHeld;
    if OwnerFails(s, e, k) {
      return;
    }
    var m := s.tracker.delivered;
    SoundDistinct(s.tracker, now);
    match e
    case Arrive(fromMe, id) =>
      var key := WebhookDedupeKey(fromMe, id);
      var t := Dedupe.Step(s.tracker, Dedupe.Acquire(key), now);
      if Has(t.delivered, k) {
        Dedupe.SweepBounds(m, now, k);
        MarkForgets(m, t.delivered, key, now, k);
      } else {
        Dedupe.LostInSweep(m, now, k);
      }
    case Built(call, _) => MarkForgets(m, m, s.pending[call].key, now, k);
    case Delivered(call) => MarkForgets(m, m, s.pending[call].key, now, k);
    case Failed(_) =>
    case SelfSent(_) =>
  }

  /** A key lost when another is marked in `t`, a part of `m`. */
  lemma MarkForgets(m: Dedupe.Times, t: Dedupe.Times, key: string, now: int, k: string)
    requires Distinct(m) && Distinct(t) && Has(t, k) && Get(t, k) == Get(m, k)
    requires key != k && (t == m || t == Dedupe.Sweep(m, now))
    requires !Has(Dedupe.Sweep(Put(t, key, now), now), k)
    ensures Get(m, k).value < now - Dedupe.DEDUPE_TTL_MS
            || Dedupe.CapacityHeld(Put(m, key, now), k, Get(m, k).value)
  {
    hide Get, Dedupe.Sweep, Put, Distinct;
    var put := Put(t, key, now);
    PutDistinct(t, key, now);
    PutLaws(t, key, now, k);
    Dedupe.LostInSweep(put, now, k);
    var time := Get(m, k).value;
    if time >= now - Dedupe.DEDUPE_TTL_MS {
      var others: Dedupe.Times :|
        && |others| == Dedupe.DEDUPE_MAX_ENTRIES && Distinct(others)
        && forall e <- others :: e.key != k && e.value >= time && Get(put, e.key) == Some(e.value);
      forall e <- others ensures Get(Put(m, key, now), e.key) == Some(e.value) {
        PutLaws(t, key, now, e.key);
        PutLaws(m, key, now, e.key);
        Dedupe.SweepBounds(m, now, e.key);
      }
    }
  }

  lemma SettledOrArriving(s: Session, e: Event)
    requires e.Arrive?
    ensures Posts(s, e).None?
  {
  }

  lemma SuppressedSettles(s: Session, e: Event, now: int)
    requires Inv(s, now) && e.Arrive? && e.fromMe && e.id != "" && Has(s.selfSent, e.id)
    requires WebhookDedupeKey(true, e.id) !in s.tracker.inflight
    ensures Settled(Step(s, e, now), WebhookDedupeKey(true, e.id))
  {
    var key := WebhookDedupeKey(true, e.id);
    var t := Dedupe.Step(s.tracker, Dedupe.Acquire(key), now);
    if TakenOn(s, e, now) {
      Dedupe.StepSound(s.tracker, Dedupe.Acquire(key), now, now);
      Dedupe.MarkSurvives(t, key, now, now);
    }
  }

  /**
   * A message remembered as self-sent before its mirror arrives, and still held then, produces
   * no webhook until the tracker forgets it.
   */
  lemma SelfSentNeverEchoes(run: seq<Timed>, i: nat, j: nat)
    requires Chronological(run) && i <= j < |run|
    requires var e := run[i].event; e.Arrive? && e.fromMe && e.id != ""
    requires Has(After(run, i).selfSent, run[i].event.id)
    requires WebhookDedupeKey(true, run[i].event.id) !in After(run, i).tracker.inflight
    requires Posts(After(run, j), run[j].event) == Some(WebhookDedupeKey(true, run[i].event.id))
    ensures LapsedBetween(run, i, j, WebhookDedupeKey(true, run[i].event.id))
  {
    hide LapsedBetween, After, Posts, Settled, Unsettles, Step, Inv, Has, WebhookDedupeKey;
    RunInvAt(run, i);
    AfterNext(run, i);
    SuppressedSettles(After(run, i), run[i].event, run[i].at);
    SettledOrArriving(After(run, i), run[i].event);
    PostedOnlyAfterUnsettled(run, i + 1, j, WebhookDedupeKey(true, run[i].event.id));
    UnsettledLapsed(run, i, j, WebhookDedupeKey(true, run[i].event.id));
  }

  // ---------------------------------------------------------------------------
  // Which arrivals are handled
  // ---------------------------------------------------------------------------

  predicate IsArrival(e: Event, k: string) {
    e.Arrive? && e.id != "" && WebhookDedupeKey(e.fromMe, e.id) == k
  }

  /** Nothing is known of the key: it is neither in flight nor held as delivered. */
  predicate Unknown(s: Session, k: string) {
    k !in s.tracker.inflight && !Has(s.tracker.delivered, k)
  }

  /** The call of an arrival waits for its event, or the arrival is the mirror of a self-sent message. */
  predicate Handled(s: Session, e: Event, s': Session, k: string) {
    || (s.calls in s'.pending && s'.pending[s.calls] == Pending(k, Building))
    || (e.Arrive? && e.fromMe && Has(s.selfSent, e.id))
  }

  lemma ReleasedIsUnknown(s: Session, e: Event, now: int)
    requires Owned(s) && e.Failed? && e.call in s.pending
    ensures Unknown(Step(s, e, now), s.pending[e.call].key)
  {
  }

  /** A call marks no key that its session knows nothing of. */
  lemma NotMarked(s: Session, call: nat, k: string)
    requires Owned(s) && call in s.pending && Unknown(s, k)
    ensures s.pending[call].key != k
  {
  }

  lemma UnknownStep(s: Session, e: Event, now: int, k: string)
    requires Inv(s, now) && Unknown(s, k) && !IsArrival(e, k)
    ensures Unknown(Step(s, e, now), k)
  {
    hide Dedupe.Sound, Dedupe.Sweep, Owned, Has, Distinct, Put, WebhookDedupeKey;
    SoundDistinct(s.tracker, now);
    match e
    case Arrive(fromMe, id) =>
      var key := WebhookDedupeKey(fromMe, id);
      NothingElseDelivered(s.tracker, Dedupe.Acquire(key), now, k);
      Dedupe.SweepBounds(s.tracker.delivered, now, k);
      NothingElseDelivered(Dedupe.Step(s.tracker, Dedupe.Acquire(key), now), Dedupe.Mark(key), now, k);
    case SelfSent(_) =>
    case _ =>
      if e.call in s.pending {
        NotMarked(s, e.call, k);
        NothingElseDelivered(s.tracker, Dedupe.Mark(s.pending[e.call].key), now, k);
      }
  }

  lemma UnknownIsHandled(s: Session, e: Event, now: int, k: string)
    requires Inv(s, now) && Unknown(s, k) && IsArrival(e, k)
    ensures Handled(s, e, Step(s, e, now), k)
  {
    hide Owned, Dedupe.Sweep, WebhookDedupeKey, Get;
    NothingElseDelivered(s.tracker, Dedupe.Acquire(k), now, k);
  }

  lemma {:induction false} StaysUnknown(run: seq<Timed>, i: nat, j: nat, k: string)
    requires Chronological(run) && i <= j < |run| && Unknown(After(run, i), k)
    requires forall m | i <= m < j :: !IsArrival(run[m].event, k)
    ensures Unknown(After(run, j), k)
    decreases j - i
  {
    hide After, Step, Inv, Unknown, IsArrival;
    if i < j {
      RunInvAt(run, i);
      UnknownStep(After(run, i), run[i].event, run[i].at, k);
      AfterNext(run, i);
      StaysUnknown(run, i + 1, j, k);
    }
  }

  /** The first arrival of a message is handled, whatever the session did before. */
  lemma FirstArrivalIsHandled(run: seq<Timed>, j: nat, k: string)
    requires Chronological(run) && j < |run| && IsArrival(run[j].event, k)
    requires forall m | 0 <= m < j :: !IsArrival(run[m].event, k)
    ensures Handled(After(run, j), run[j].event, After(run, j + 1), k)
  {
    hide Step, Inv, IsArrival, Handled;
    StaysUnknown(run, 0, j, k);
    RunInvAt(run, j);
    UnknownIsHandled(After(run, j), run[j].event, run[j].at, k);
    AfterNext(run, j);
  }

  /** When the owner of a message fails, the next arrival of that message is handled again. */
  lemma ReplayIsHandled(run: seq<Timed>, i: nat, j: nat, k: string)
    requires Chronological(run) && i < j < |run|
    requires var e := run[i].event;
             e.Failed? && e.call in After(run, i).pending && After(run, i).pending[e.call].key == k
    requires IsArrival(run[j].event, k) && forall m | i < m < j :: !IsArrival(run[m].event, k)
    ensures Handled(After(run, j), run[j].event, After(run, j + 1), k)
  {
    hide After, Step, IsArrival, Handled, Unknown, Dedupe.Sound, Distinct;
    RunInvAt(run, i);
    ReleasedIsUnknown(After(run, i), run[i].event, run[i].at);
    AfterNext(run, i);
    StaysUnknown(run, i + 1, j, k);
    RunInvAt(run, j);
    UnknownIsHandled(After(run, j), run[j].event, run[j].at, k);
    AfterNext(run, j);
  }

  // ---------------------------------------------------------------------------
  // The class
  // ---------------------------------------------------------------------------

  function Unexpired(time: Option<int>, cutoff: int): Option<int> {
    if time.Some? && time.value >= cutoff then time else None
  }

  /** `id` is held with the time `now`, and of the others exactly those no older than five minutes. */
  ghost predicate Remembers(before: Dedupe.Times, id: string, now: int, after: Dedupe.Times) {
    forall k ::
      Get(after, k) == if k == id then Some(now) else Unexpired(Get(before, k), now - SELF_SENT_TTL_MS)
  }

  lemma RememberLaws(m: Dedupe.Times, id: string, now: int)
    requires Distinct(m)
    ensures Remembers(m, id, now, Dedupe.DropOld(Put(m, id, now), now - SELF_SENT_TTL_MS))
  {
    hide Distinct, Put, Dedupe.DropOld;
    PutDistinct(m, id, now);
    var after := Dedupe.DropOld(Put(m, id, now), now - SELF_SENT_TTL_MS);
    forall k
      ensures Get(after, k) == if k == id then Some(now) else Unexpired(Get(m, k), now - SELF_SENT_TTL_MS)
    {
      PutLaws(m, id, now, k);
      Dedupe.DropOldLaws(Put(m, id, now), now - SELF_SENT_TTL_MS, k);
    }
  }

  /** The fields of a session that message handling touches, and its suspended calls. */
  class BaileysSession {
    var selfSent: Dedupe.Times
    const messageDedupe: Dedupe.MessageDedupeTracker
    var calls: nat
    var pending: map<nat, Pending>

    constructor ()
      ensures Valid() && View() == Session(Dedupe.State([], {}), [], 0, map[])
      ensures fresh(messageDedupe)
    {
      messageDedupe := new Dedupe.MessageDedupeTracker();
      selfSent, calls, pending := [], 0, map[];
    }

    ghost predicate Valid()
      reads this, messageDedupe
    {
      messageDedupe.Valid() && Distinct(selfSent)
    }

    /** The tracker has marked this key since it was `tracker`. */
    ghost predicate Marked(tracker: Dedupe.State, key: string, now: int)
      reads this, messageDedupe
    {
      && messageDedupe.inflight == tracker.inflight - {key}
      && messageDedupe.delivered == Dedupe.Sweep(Put(tracker.delivered, key, now), now)
    }

    ghost function View(): Session
      reads this, messageDedupe
    {
      Session(messageDedupe.View(), selfSent, calls, pending)
    }

    /** `onMessage` up to its first `await`; `call` waits for its event when it is pending afterwards. */
    method OnMessage(fromMe: bool, id: string, now: int) returns (call: nat)
      requires Valid()
      modifies this, messageDedupe
      ensures Valid() && View() == Step(old(View()), Arrive(fromMe, id), now)
      ensures call == old(calls) && calls == call + if id == "" then 0 else 1
      ensures var k := WebhookDedupeKey(fromMe, id); var tracker := old(messageDedupe.View());
              var swept := Dedupe.Sweep(tracker.delivered, now);
              if id == "" || k in tracker.inflight || Has(swept, k) then
                && pending == old(pending) && selfSent == old(selfSent) && messageDedupe.inflight == tracker.inflight
                && messageDedupe.delivered == if id == "" then tracker.delivered else swept
              else if fromMe && Has(old(selfSent), id) then
                && pending == old(pending) && selfSent == Remove(old(selfSent), id)
                && messageDedupe.inflight == tracker.inflight
                && messageDedupe.delivered == Dedupe.Sweep(Put(swept, k, now), now)
              else
                && pending == old(pending)[call := Pending(k, Building)] && selfSent == old(selfSent)
                && messageDedupe.inflight == tracker.inflight + {k} && messageDedupe.delivered == swept
    {
      call := calls;
      if id == "" { return; }
      var dedupeKey := WebhookDedupeKey(fromMe, id);
      var accepted := messageDedupe.TryAcquire(dedupeKey, now);
      calls := calls + 1;
      if !accepted { return; }
      if fromMe && Has(selfSent, id) {
        RemoveDistinct(selfSent, id);
        selfSent := Remove(selfSent, id);
        messageDedupe.MarkDelivered(dedupeKey, now);
        return;
      }
      pending := pending[call := Pending(dedupeKey, Building)];
    }

    /** After the event is built: hand it over, or mark a message that is not ingestable. */
    method OnEventBuilt(call: nat, ingestable: bool, now: int) returns (posted: Option<string>)
      requires Valid()
      modifies this, messageDedupe
      ensures Valid() && View() == Step(old(View()), Built(call, ingestable), now)
      ensures posted == Posts(old(View()), Built(call, ingestable))
      ensures selfSent == old(selfSent) && calls == old(calls)
      ensures var waits := call in old(pending) && old(pending)[call].stage == Building;
              && (posted.Some? <==> waits && ingestable)
              && (posted.Some? ==>
                    && posted.value == old(pending)[call].key && messageDedupe.View() == old(messageDedupe.View())
                    && pending == old(pending)[call := Pending(posted.value, Delivering)])
              && (waits && !ingestable ==>
                    pending == old(pending) - {call} && Marked(old(messageDedupe.View()), old(pending)[call].key, now))
              && (!waits ==> pending == old(pending) && messageDedupe.View() == old(messageDedupe.View()))
    {
      posted := None;
      if call !in pending || pending[call].stage != Building { return; }
      if ingestable {
        posted := Some(pending[call].key);
        pending := pending[call := pending[call].(stage := Delivering)];
      } else {
        messageDedupe.MarkDelivered(pending[call].key, now);
        pending := pending - {call};
      }
    }

    /** After `deliverEvent` returns, whether or not a webhook attempt succeeded. */
    method OnDelivered(call: nat, now: int)
      requires Valid()
      modifies this, messageDedupe
      ensures Valid() && View() == Step(old(View()), Delivered(call), now)
      ensures selfSent == old(selfSent) && calls == old(calls)
      ensures if call in old(pending) && old(pending)[call].stage == Delivering then
                pending == old(pending) - {call} && Marked(old(messageDedupe.View()), old(pending)[call].key, now)
              else pending == old(pending) && messageDedupe.View() == old(messageDedupe.View())
    {
      if call !in pending || pending[call].stage != Delivering { return; }
      messageDedupe.MarkDelivered(pending[call].key, now);
      pending := pending - {call};
    }

    /** The catch clause. */
    method OnFailed(call: nat, now: int)
      requires Valid()
      modifies this, messageDedupe
      ensures Valid() && View() == Step(old(View()), Failed(call), now)
      ensures selfSent == old(selfSent) && calls == old(calls) && pending == old(pending) - {call}
      ensures messageDedupe.delivered == old(messageDedupe.delivered)
      ensures messageDedupe.inflight
              == old(messageDedupe.inflight) - if call in old(pending) then {old(pending)[call].key} else {}
    {
      if call !in pending { return; }
      messageDedupe.ReleaseKey(pending[call].key, now);
      pending := pending - {call};
    }

    method RememberSelfSent(id: string, now: int)
      requires Valid()
      modifies this
      ensures Valid() && View() == Step(old(View()), SelfSent(id), now)
      ensures calls == old(calls) && pending == old(pending) && messageDedupe.View() == old(messageDedupe.View())
      ensures id == "" ==> selfSent == old(selfSent)
      ensures id != "" ==> Remembers(old(selfSent), id, now, selfSent)
    {
      if id == "" { return; }
      RememberLaws(selfSent, id, now);
      PutDistinct(selfSent, id, now);
      selfSent := Put(selfSent, id, now);
      var cutoff := now - SELF_SENT_TTL_MS;
      Dedupe.DropOldLaws(selfSent, cutoff, "");
      selfSent := DeleteUnless(selfSent, (at: int) => at >= cutoff);
    }
  }
}
