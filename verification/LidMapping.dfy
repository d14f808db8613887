/**
 * LID to phone-number mapping (whatsapp/src/jid.ts) and its resolution pipeline
 * (whatsapp/src/lid-resolve.ts). `norm` stands for `normalizeJid`, whose library part is not
 * modelled: it is any idempotent function that keeps LIDs apart from other ids. The signal
 * store of a resolution is a parameter.
 */
module LidMapping {
  import opened Options

  type Jid = Option<string>

  datatype LidState = LidState(
    lidToPn: map<string, string>, pnToLid: map<string, string>, contactPnByLid: map<string, string>)

  const EMPTY := LidState(map[], map[], map[])

  type Store = map<string, LidState>

  predicate EndsWith(s: string, suffix: string) {
    |s| >= |suffix| && s[|s| - |suffix|..] == suffix
  }

  predicate IsLid(jid: string) { EndsWith(jid, "@lid") }

  predicate IsGroup(jid: string) { EndsWith(jid, "@g.us") }

  predicate IsUser(jid: string) {
    EndsWith(jid, "@s.whatsapp.net") || EndsWith(jid, "@c.us") || EndsWith(jid, "@lid")
  }

  ghost predicate Normalizer(norm: string -> string) {
    && norm("") == ""
    && forall j :: norm(norm(j)) == norm(j) && (IsLid(norm(j)) <==> IsLid(j))
  }

  function Text(j: Jid): string {
    if j.Some? then j.value else ""
  }

  function Lookup(m: map<string, string>, k: string): Jid {
    if k in m then Some(m[k]) else None
  }

  // ---------------------------------------------------------------------------
  // Learning
  // ---------------------------------------------------------------------------

  /** A pair that `learnMapping` takes: a LID and a phone id, both non-empty once normalized. */
  predicate Learnable(norm: string -> string, lid: Jid, pn: Jid) {
    && Text(lid) != "" && Text(pn) != "" && IsLid(Text(lid)) && !IsLid(Text(pn))
    && norm(Text(lid)) != "" && norm(Text(pn)) != ""
  }

  /** Learning an equal pair again changes nothing, not even a stale reverse entry. */
  function Learn(norm: string -> string, s: LidState, lid: Jid, pn: Jid): LidState {
    if !Learnable(norm, lid, pn) then s
    else
      var l, p := norm(Text(lid)), norm(Text(pn));
      if Lookup(s.lidToPn, l) == Some(p) then s
      else s.(lidToPn := s.lidToPn[l := p], pnToLid := s.pnToLid[p := l])
  }

  datatype Pair = Pair(lid: Jid, pn: Jid)

  function LearnAll(norm: string -> string, s: LidState, pairs: seq<Pair>): LidState {
    if pairs == [] then s
    else
      var last := pairs[|pairs| - 1];
      Learn(norm, LearnAll(norm, s, pairs[..|pairs| - 1]), last.lid, last.pn)
  }

  datatype MessageKey = MessageKey(
    remoteJid: Jid, participant: Jid, remoteJidAlt: Jid, participantAlt: Jid, senderPn: Jid, participantPn: Jid,
    senderLid: Jid, participantLid: Jid)

  /** The pairs of one message key, in the order they are tried. */
  function KeyPairs(key: Option<MessageKey>): seq<Pair> {
    match key
    case None => []
    case Some(k) =>
      [Pair(k.remoteJid, k.remoteJidAlt), Pair(k.remoteJidAlt, k.remoteJid), Pair(k.senderLid, k.senderPn),
       Pair(k.participant, k.participantAlt), Pair(k.participantAlt, k.participant),
       Pair(k.participantLid, k.participantPn)]
  }

  datatype Contact = Contact(id: Jid, lid: Jid, phoneNumber: Jid, jid: Jid)

  /** The LID under which a contact's phone number is indexed; possibly empty, possibly no LID. */
  function ContactLid(norm: string -> string, c: Contact): string {
    if Text(c.lid) != "" && norm(Text(c.lid)) != "" then norm(Text(c.lid))
    else if IsLid(Text(c.id)) then norm(Text(c.id)) else ""
  }

  predicate Indexed(norm: string -> string, c: Contact) {
    Text(c.phoneNumber) != "" && ContactLid(norm, c) != "" && norm(Text(c.phoneNumber)) != ""
  }

  function FirstLid(candidates: seq<string>): Jid {
    if candidates == [] then None else if IsLid(candidates[0]) then Some(candidates[0]) else FirstLid(candidates[1..])
  }

  function FirstPn(candidates: seq<string>): Jid {
    if candidates == [] then None
    else if !IsLid(candidates[0]) && IsUser(candidates[0]) then Some(candidates[0]) else FirstPn(candidates[1..])
  }

  function Candidates(c: Contact): seq<string> {
    (if Text(c.id) != "" then [Text(c.id)] else []) + (if Text(c.lid) != "" then [Text(c.lid)] else [])
    + (if Text(c.jid) != "" then [Text(c.jid)] else [])
  }

  function ContactPairs(norm: string -> string, c: Contact): seq<Pair> {
    (if Indexed(norm, c) then [Pair(Some(ContactLid(norm, c)), Some(norm(Text(c.phoneNumber))))] else [])
    + [Pair(FirstLid(Candidates(c)), FirstPn(Candidates(c)))]
  }

  function IndexContact(norm: string -> string, s: LidState, c: Contact): LidState {
    if Indexed(norm, c)
    then s.(contactPnByLid := s.contactPnByLid[ContactLid(norm, c) := norm(Text(c.phoneNumber))]) else s
  }

  // ---------------------------------------------------------------------------
  // Resolution
  // ---------------------------------------------------------------------------

  datatype Via = Alt | Memory | SignalStore | ByContact | Unresolved | NotALid

  datatype Resolution = Resolution(jid: string, lid: Jid, via: Via)

  /** The phone id a learned map gives for a normalized LID. */
  function FromMemory(norm: string -> string, s: LidState, lid: string): Jid {
    var mapped := if lid in s.lidToPn then Lookup(s.lidToPn, lid) else Lookup(s.contactPnByLid, lid);
    if Text(mapped) != "" && !IsLid(Text(mapped)) then Some(norm(Text(mapped))) else None
  }

  /** `resolveToPn` without hints. */
  function ResolveToPn(norm: string -> string, s: LidState, jid: string): Resolution {
    if jid == "" then Resolution("", None, NotALid)
    else if !IsLid(norm(jid)) then Resolution(norm(jid), Lookup(s.pnToLid, norm(jid)), NotALid)
    else
      var pn := FromMemory(norm, s, norm(jid));
      if pn.Some? then Resolution(pn.value, Some(norm(jid)), Memory)
      else Resolution(norm(jid), Some(norm(jid)), Unresolved)
  }

  function GetContactPnByLid(norm: string -> string, s: LidState, lid: string): Jid {
    if norm(lid) in s.contactPnByLid then Lookup(s.contactPnByLid, norm(lid)) else Lookup(s.lidToPn, norm(lid))
  }

  /** One `tryPair`: the pair to learn and the phone id found, which may be empty. */
  function TryPair(norm: string -> string, lid: string, primary: Jid, alt: Jid): Option<Pair> {
    if Text(primary) == "" || Text(alt) == "" then None
    else if norm(Text(primary)) == lid && !IsLid(Text(alt)) then Some(Pair(primary, alt))
    else if norm(Text(alt)) == lid && !IsLid(Text(primary)) then Some(Pair(alt, primary))
    else None
  }

  function AltPair(norm: string -> string, lid: string, key: Option<MessageKey>): Option<Pair> {
    match key
    case None => None
    case Some(k) =>
      var first := TryPair(norm, lid, k.remoteJid, k.remoteJidAlt);
      if first.Some? then first else TryPair(norm, lid, k.participant, k.participantAlt)
  }

  /** Pairs learned from the message key before anything else is asked. */
  function EarlyPairs(norm: string -> string, lid: string, key: Option<MessageKey>): seq<Pair> {
    var alt := AltPair(norm, lid, key);
    KeyPairs(key) + if alt.Some? then [alt.value] else []
  }

  /** Whether the signal store is asked, and knows a phone id. */
  predicate StoreAnswers(oracle: Jid) {
    Text(oracle) != "" && !IsLid(Text(oracle))
  }

  /** A resolution up to its `await`; `None` when it goes on to ask the signal store. */
  function ResolveEarly(norm: string -> string, s: LidState, jid: string, key: Option<MessageKey>): Option<Resolution> {
    var n := norm(jid);
    if n == "" || IsGroup(n) then Some(Resolution(if n != "" then n else jid, None, NotALid))
    else if !IsLid(n) then Some(Resolution(n, None, NotALid))
    else
      var early := LearnAll(norm, s, EarlyPairs(norm, n, key));
      var alt := AltPair(norm, n, key);
      var fromAlt := if alt.Some? then norm(Text(alt.value.pn)) else "";
      if fromAlt != "" then Some(Resolution(fromAlt, Some(n), Alt))
      else
        var memory := ResolveToPn(norm, early, n);
        if !IsLid(memory.jid) then Some(Resolution(memory.jid, Some(n), Memory)) else None
  }

  /**
   * The rest, in the state the `await` comes back to. `oracle` is what `getPNForLID` answers,
   * absent when there is no store, no answer or an error.
   */
  function ResolveLate(norm: string -> string, s: LidState, n: string, oracle: Jid): Resolution {
    if StoreAnswers(oracle) then Resolution(norm(Text(oracle)), Some(n), SignalStore)
    else
      var contact := GetContactPnByLid(norm, s, n);
      if Text(contact) != "" && !IsLid(Text(contact)) then Resolution(norm(Text(contact)), Some(n), ByContact)
      else Resolution(n, Some(n), Unresolved)
  }

  /** The whole resolution, begun in the state `s` and, if it has to wait, ended in `later`. */
  function Resolve(
    norm: string -> string, s: LidState, jid: string, key: Option<MessageKey>, later: LidState, oracle: Jid): Resolution
  {
    var early := ResolveEarly(norm, s, jid, key);
    if early.Some? then early.value else ResolveLate(norm, later, norm(jid), oracle)
  }

  /** The pairs each half tries to learn. */
  function StartPairs(norm: string -> string, jid: string, key: Option<MessageKey>): seq<Pair> {
    var n := norm(jid);
    if n == "" || IsGroup(n) || !IsLid(n) then [] else EarlyPairs(norm, n, key)
  }

  function EndPairs(norm: string -> string, n: string, oracle: Jid): seq<Pair> {
    if StoreAnswers(oracle) then [Pair(Some(n), Some(norm(Text(oracle))))] else []
  }

  // ---------------------------------------------------------------------------
  // Runs over all connections
  // ---------------------------------------------------------------------------

  datatype Op =
    | LearnMapping(connection: string, pair: Pair)
    | LearnKey(connection: string, key: Option<MessageKey>)
    | LearnContact(connection: string, contact: Contact)
    | StartResolve(connection: string, jid: string, key: Option<MessageKey>)
    | EndResolve(connection: string, lid: string, oracle: Jid)
    | Clear(connection: string)

  function Of(m: Store, connection: string): LidState {
    if connection in m then m[connection] else EMPTY
  }

  /** The pairs one operation tries to learn for its connection. */
  function OpPairs(norm: string -> string, op: Op): seq<Pair> {
    match op
    case LearnMapping(_, pair) => [pair]
    case LearnKey(_, key) => KeyPairs(key)
    case LearnContact(_, c) => ContactPairs(norm, c)
    case StartResolve(_, jid, key) => StartPairs(norm, jid, key)
    case EndResolve(_, lid, oracle) => EndPairs(norm, lid, oracle)
    case Clear(_) => []
  }

  function Step(norm: string -> string, m: Store, op: Op): Store {
    if op.Clear? then m - {op.connection}
    else
      var learned := LearnAll(norm, Of(m, op.connection), OpPairs(norm, op));
      m[op.connection := if op.LearnContact? then IndexContact(norm, learned, op.contact) else learned]
  }

  function After(norm: string -> string, run: seq<Op>, n: nat): Store
    requires n <= |run|
  {
    if n == 0 then map[] else Step(norm, After(norm, run, n - 1), run[n - 1])
  }

  /** The store after a list of operations. */
  function Steps(norm: string -> string, m: Store, ops: seq<Op>): Store {
    if ops == [] then m else Step(norm, Steps(norm, m, ops[..|ops| - 1]), ops[|ops| - 1])
  }

  /** All pairs tried for a connection since it was last cleared. */
  function Tried(norm: string -> string, run: seq<Op>, n: nat, connection: string): seq<Pair>
    requires n <= |run|
  {
    if n == 0 then []
    else
      var op := run[n - 1];
      if op.connection != connection then Tried(norm, run, n - 1, connection)
      else if op.Clear? then []
      else Tried(norm, run, n - 1, connection) + OpPairs(norm, op)
  }

  /** The phone id of the last learnable pair of a LID. */
  function LastLearned(norm: string -> string, pairs: seq<Pair>, lid: string): Jid {
    if pairs == [] then None
    else
      var last := pairs[|pairs| - 1];
      if Learnable(norm, last.lid, last.pn) && norm(Text(last.lid)) == lid then Some(norm(Text(last.pn)))
      else LastLearned(norm, pairs[..|pairs| - 1], lid)
  }

  // ---------------------------------------------------------------------------
  // What every learn keeps
  // ---------------------------------------------------------------------------

  /** Forward values are non-empty phone ids listed in reverse; reverse values are LIDs listed forward. */
  ghost predicate Linked(norm: string -> string, s: LidState) {
    && s.lidToPn.Values <= s.pnToLid.Keys
    && s.pnToLid.Values <= s.lidToPn.Keys
    && (forall l <- s.lidToPn :: IsLid(l) && norm(l) == l)
    && (forall l <- s.lidToPn ::
          s.lidToPn[l] != "" && !IsLid(s.lidToPn[l]) && norm(s.lidToPn[l]) == s.lidToPn[l])
  }

  lemma LearnLinked(norm: string -> string, s: LidState, lid: Jid, pn: Jid)
    requires Normalizer(norm) && Linked(norm, s)
    ensures Linked(norm, Learn(norm, s, lid, pn))
  {
    hide IsLid;
  }

  lemma {:induction false} LearnAllLinked(norm: string -> string, s: LidState, pairs: seq<Pair>)
    requires Normalizer(norm) && Linked(norm, s)
    ensures Linked(norm, LearnAll(norm, s, pairs))
  {
    hide Linked, Normalizer, Learn;
    if pairs != [] {
      LearnAllLinked(norm, s, pairs[..|pairs| - 1]);
      LearnLinked(norm, LearnAll(norm, s, pairs[..|pairs| - 1]), pairs[|pairs| - 1].lid, pairs[|pairs| - 1].pn);
    }
  }

  /** Learning adds LIDs and forgets none; it overwrites with the last pair of each. */
  lemma {:induction false} LearnAllLast(norm: string -> string, s: LidState, pairs: seq<Pair>, lid: string)
    ensures Lookup(LearnAll(norm, s, pairs).lidToPn, lid)
            == var last := LastLearned(norm, pairs, lid); if last.Some? then last else Lookup(s.lidToPn, lid)
  {
    hide Learnable;
    if pairs != [] {
      LearnAllLast(norm, s, pairs[..|pairs| - 1], lid);
    }
  }

  lemma {:induction false} LearnAllAppend(norm: string -> string, s: LidState, a: seq<Pair>, b: seq<Pair>)
    ensures LearnAll(norm, s, a + b) == LearnAll(norm, LearnAll(norm, s, a), b)
  {
    if b == [] {
      assert a + b == a;
    } else {
      var last := |b| - 1;
      assert (a + b)[..|a + b| - 1] == a + b[..last];
      LearnAllAppend(norm, s, a, b[..last]);
    }
  }

  lemma {:induction false} LastLearnedAppend(norm: string -> string, a: seq<Pair>, b: seq<Pair>, lid: string)
    ensures LastLearned(norm, a + b, lid)
            == if LastLearned(norm, b, lid).Some? then LastLearned(norm, b, lid) else LastLearned(norm, a, lid)
  {
    if b == [] {
      assert a + b == a;
    } else {
      var last := |b| - 1;
      assert (a + b)[..|a + b| - 1] == a + b[..last];
      LastLearnedAppend(norm, a, b[..last], lid);
    }
  }

  // ---------------------------------------------------------------------------
  // When the two maps are inverse to each other
  // ---------------------------------------------------------------------------

  ghost predicate Inverse(s: LidState) {
    && (forall l <- s.lidToPn :: Lookup(s.pnToLid, s.lidToPn[l]) == Some(l))
    && (forall p <- s.pnToLid :: Lookup(s.lidToPn, s.pnToLid[p]) == Some(p))
  }

  /** A learn keeps the maps inverse exactly when it is void, a repeat, or new on both sides. */
  lemma LearnKeepsInverseExactly(norm: string -> string, s: LidState, lid: Jid, pn: Jid)
    requires Inverse(s)
    ensures var l, p := norm(Text(lid)), norm(Text(pn));
            Inverse(Learn(norm, s, lid, pn))
            <==> !Learnable(norm, lid, pn) || Lookup(s.lidToPn, l) == Some(p) || (l !in s.lidToPn && p !in s.pnToLid)
  {
    hide IsLid;
    var l, p, s' := norm(Text(lid)), norm(Text(pn)), Learn(norm, s, lid, pn);
    if Learnable(norm, lid, pn) && Lookup(s.lidToPn, l) != Some(p) {
      assert s'.lidToPn[l] == p && s'.pnToLid[p] == l;
      if l in s.lidToPn {
        assert s'.pnToLid[s.lidToPn[l]] == l;
      } else if p in s.pnToLid {
        assert s'.lidToPn[s.pnToLid[p]] == p;
      }
    }
  }

  /** A learnable pair of these two normalized ids was tried. */
  ghost predicate TriedPair(norm: string -> string, pairs: seq<Pair>, l: string, p: string) {
    exists a <- pairs :: Learnable(norm, a.lid, a.pn) && norm(Text(a.lid)) == l && norm(Text(a.pn)) == p
  }

  /** No LID was tried with two phones, and no phone with two LIDs. */
  ghost predicate OneToOne(norm: string -> string, pairs: seq<Pair>) {
    forall l, p, l', p' | TriedPair(norm, pairs, l, p) && TriedPair(norm, pairs, l', p') :: l == l' <==> p == p'
  }

  lemma TriedLast(norm: string -> string, before: seq<Pair>, last: Pair, l: string, p: string)
    ensures TriedPair(norm, before + [last], l, p)
            <==> TriedPair(norm, before, l, p)
                 || (Learnable(norm, last.lid, last.pn) && norm(Text(last.lid)) == l && norm(Text(last.pn)) == p)
  {
    hide Learnable;
    assert forall a :: a in before + [last] <==> a in before || a == last;
  }

  lemma OneToOneBefore(norm: string -> string, before: seq<Pair>, last: Pair)
    requires OneToOne(norm, before + [last])
    ensures OneToOne(norm, before)
  {
    hide TriedPair;
    forall l, p, l', p' | TriedPair(norm, before, l, p) && TriedPair(norm, before, l', p') ensures l == l' <==> p == p' {
      TriedLast(norm, before, last, l, p);
      TriedLast(norm, before, last, l', p');
    }
  }

  /** Both maps hold exactly the tried pairs. */
  ghost predicate HoldsTried(norm: string -> string, s: LidState, pairs: seq<Pair>) {
    && (forall l, p :: Lookup(s.lidToPn, l) == Some(p) <==> TriedPair(norm, pairs, l, p))
    && (forall l, p :: Lookup(s.pnToLid, p) == Some(l) <==> TriedPair(norm, pairs, l, p))
  }

  lemma HoldsTriedStep(norm: string -> string, s: LidState, before: seq<Pair>, last: Pair)
    requires HoldsTried(norm, s, before) && OneToOne(norm, before + [last])
    ensures HoldsTried(norm, Learn(norm, s, last.lid, last.pn), before + [last])
  {
    hide TriedPair, Learnable;
    var s', pairs := Learn(norm, s, last.lid, last.pn), before + [last];
    var l0, p0 := norm(Text(last.lid)), norm(Text(last.pn));
    forall l, p ensures Lookup(s'.lidToPn, l) == Some(p) <==> TriedPair(norm, pairs, l, p)
      ensures Lookup(s'.pnToLid, p) == Some(l) <==> TriedPair(norm, pairs, l, p)
    {
      TriedLast(norm, before, last, l, p);
      TriedLast(norm, before, last, l0, p0);
    }
  }

  lemma {:induction false} OneToOneHolds(norm: string -> string, pairs: seq<Pair>)
    requires OneToOne(norm, pairs)
    ensures HoldsTried(norm, LearnAll(norm, EMPTY, pairs), pairs)
  {
    hide OneToOne, Learn;
    if pairs != [] {
      hide HoldsTried;
      var before, last := pairs[..|pairs| - 1], pairs[|pairs| - 1];
      assert pairs == before + [last];
      OneToOneBefore(norm, before, last);
      OneToOneHolds(norm, before);
      HoldsTriedStep(norm, LearnAll(norm, EMPTY, before), before, last);
    }
  }

  /**
   * From a cleared connection on, the reverse map has been the inverse of the forward map after
   * every pair exactly when no LID was tried with two phones and no phone with two LIDs.
   */
  lemma {:induction false} InverseThroughoutExactly(norm: string -> string, pairs: seq<Pair>)
    ensures (forall k | 0 <= k <= |pairs| :: Inverse(LearnAll(norm, EMPTY, pairs[..k]))) <==> OneToOne(norm, pairs)
  {
    hide Learn, OneToOne;
    if pairs == [] {
      NothingIsOneToOne(norm);
    } else {
      hide Inverse;
      var last := |pairs| - 1;
      var before := pairs[..last];
      assert pairs == before + [pairs[last]] && pairs[..|pairs|] == pairs;
      assert forall k | 0 <= k <= last :: before[..k] == pairs[..k];
      InverseThroughoutExactly(norm, before);
      if OneToOne(norm, pairs) {
        OneToOneBefore(norm, before, pairs[last]);
        OneToOneInverse(norm, pairs);
      } else if OneToOne(norm, before) {
        LastBreaks(norm, before, pairs[last]);
      }
    }
  }

  lemma NothingIsOneToOne(norm: string -> string)
    ensures OneToOne(norm, []) && Inverse(EMPTY)
  {
  }

  lemma OneToOneInverse(norm: string -> string, pairs: seq<Pair>)
    requires OneToOne(norm, pairs)
    ensures Inverse(LearnAll(norm, EMPTY, pairs))
  {
    hide TriedPair, LearnAll, OneToOne;
    OneToOneHolds(norm, pairs);
  }

  /** The first pair that is not one-to-one with those before leaves the maps not inverse. */
  lemma LastBreaks(norm: string -> string, before: seq<Pair>, last: Pair)
    requires OneToOne(norm, before) && !OneToOne(norm, before + [last])
    ensures !Inverse(LearnAll(norm, EMPTY, before + [last]))
  {
    hide TriedPair, Learnable, LearnAll, Inverse;
    var s := LearnAll(norm, EMPTY, before);
    var l0, p0 := norm(Text(last.lid)), norm(Text(last.pn));
    OneToOneHolds(norm, before);
    OneToOneInverse(norm, before);
    LearnAllAppend(norm, EMPTY, before, [last]);
    LearnAllOne(norm, s, last);
    LearnKeepsInverseExactly(norm, s, last.lid, last.pn);
    var l, p, l', p' :| TriedPair(norm, before + [last], l, p) && TriedPair(norm, before + [last], l', p')
                        && !(l == l' <==> p == p');
    TriedLast(norm, before, last, l, p);
    TriedLast(norm, before, last, l', p');
    TriedLast(norm, before, last, l0, p0);
  }

  /**
   * The reverse map is no inverse of the forward map: a LID that moves to another phone leaves the
   * old entry behind, and learning an equal pair again does not take a phone back.
   */
  lemma ReverseGoesStale(norm: string -> string, s: LidState, lid: Jid, other: Jid, pn: Jid, next: Jid)
    requires Learnable(norm, lid, pn) && Learnable(norm, other, pn) && Learnable(norm, lid, next)
    requires norm(Text(pn)) != norm(Text(next)) && norm(Text(lid)) != norm(Text(other))
    requires norm(Text(lid)) !in s.lidToPn && norm(Text(other)) !in s.lidToPn
    ensures var moved := LearnAll(norm, s, [Pair(lid, pn), Pair(lid, next)]);
            && moved.lidToPn[norm(Text(lid))] == norm(Text(next))
            && Lookup(moved.pnToLid, norm(Text(pn))) == Some(norm(Text(lid)))
    ensures var shared := LearnAll(norm, s, [Pair(lid, pn), Pair(other, pn), Pair(lid, pn)]);
            Lookup(shared.pnToLid, norm(Text(pn))) == Some(norm(Text(other)))
  {
    LearnAllAppend(norm, s, [Pair(lid, pn)], [Pair(lid, next)]);
    LearnAllAppend(norm, s, [Pair(lid, pn)], [Pair(other, pn)]);
    LearnAllAppend(norm, s, [Pair(lid, pn), Pair(other, pn)], [Pair(lid, pn)]);
    assert [Pair(lid, pn), Pair(other, pn)] + [Pair(lid, pn)] == [Pair(lid, pn), Pair(other, pn), Pair(lid, pn)];
    assert [Pair(lid, pn)] + [Pair(other, pn)] == [Pair(lid, pn), Pair(other, pn)];
    assert [Pair(lid, pn)] + [Pair(lid, next)] == [Pair(lid, pn), Pair(lid, next)];
    forall t: LidState, pair: Pair {
      LearnAllOne(norm, t, pair);
    }
  }

  lemma StepOthers(norm: string -> string, m: Store, op: Op, connection: string)
    requires op.connection != connection
    ensures Of(Step(norm, m, op), connection) == Of(m, connection)
  {
  }

  /**
   * After any run, each connection's forward map holds, for every LID, the phone id of the last
   * learnable pair tried since the connection was cleared, and the two maps stay linked. An
   * operation changes no other connection.
   */
  lemma {:induction false} ForwardIsLastLearned(norm: string -> string, run: seq<Op>, n: nat, connection: string)
    requires Normalizer(norm) && n <= |run|
    ensures Linked(norm, Of(After(norm, run, n), connection))
    ensures forall lid ::
              Lookup(Of(After(norm, run, n), connection).lidToPn, lid)
              == LastLearned(norm, Tried(norm, run, n, connection), lid)
    ensures n < |run| && run[n].connection != connection ==>
              Of(After(norm, run, n + 1), connection) == Of(After(norm, run, n), connection)
    decreases n
  {
    hide Linked, Normalizer, LastLearned, LearnAll, OpPairs, Learn, Lookup;
    if n == 0 {
      NothingLearned(norm);
    } else {
      var m, op := After(norm, run, n - 1), run[n - 1];
      ForwardIsLastLearned(norm, run, n - 1, connection);
      if op.connection == connection {
        var s, pairs, tried := Of(m, connection), OpPairs(norm, op), Tried(norm, run, n - 1, connection);
        NothingLearned(norm);
        LearnAllLinked(norm, s, pairs);
        var learned := LearnAll(norm, s, pairs);
        if op.LearnContact? { IndexingKeepsLinks(norm, learned, op.contact); }
        forall lid
          ensures Lookup(Of(After(norm, run, n), connection).lidToPn, lid)
                  == LastLearned(norm, Tried(norm, run, n, connection), lid)
        {
          LearnAllLast(norm, s, pairs, lid);
          LastLearnedAppend(norm, tried, pairs, lid);
        }
      } else {
        StepOthers(norm, m, op, connection);
      }
    }
    if n < |run| && run[n].connection != connection {
      StepOthers(norm, After(norm, run, n), run[n], connection);
    }
  }

  /** Apart from the contact index, a connection's maps are those its tried pairs alone give. */
  lemma {:induction false} MapsAreTried(norm: string -> string, run: seq<Op>, n: nat, connection: string)
    requires n <= |run|
    ensures var s, t := Of(After(norm, run, n), connection), LearnAll(norm, EMPTY, Tried(norm, run, n, connection));
            s.lidToPn == t.lidToPn && s.pnToLid == t.pnToLid
    decreases n
  {
    hide LearnAll, OpPairs, Learn;
    if n == 0 {
      LearnNothing(norm, EMPTY);
    } else {
      var m, op := After(norm, run, n - 1), run[n - 1];
      MapsAreTried(norm, run, n - 1, connection);
      if op.connection != connection {
        StepOthers(norm, m, op, connection);
      } else if op.Clear? {
        LearnNothing(norm, EMPTY);
      } else {
        var tried := Tried(norm, run, n - 1, connection);
        LearnAllAppend(norm, EMPTY, tried, OpPairs(norm, op));
        SameMapsLearn(norm, Of(m, connection), LearnAll(norm, EMPTY, tried), OpPairs(norm, op));
      }
    }
  }

  lemma {:induction false} SameMapsLearn(norm: string -> string, s: LidState, t: LidState, pairs: seq<Pair>)
    requires s.lidToPn == t.lidToPn && s.pnToLid == t.pnToLid
    ensures var s', t' := LearnAll(norm, s, pairs), LearnAll(norm, t, pairs);
            s'.lidToPn == t'.lidToPn && s'.pnToLid == t'.pnToLid
  {
    hide Learnable;
    if pairs != [] {
      SameMapsLearn(norm, s, t, pairs[..|pairs| - 1]);
    }
  }

  /**
   * In any run, a connection's maps have been inverse after every pair tried since its last clearing
   * exactly when those pairs are one-to-one; and then they are inverse at this point of the run.
   */
  lemma RunInverse(norm: string -> string, run: seq<Op>, n: nat, connection: string)
    requires n <= |run|
    ensures var tried := Tried(norm, run, n, connection);
            && ((forall k | 0 <= k <= |tried| :: Inverse(LearnAll(norm, EMPTY, tried[..k]))) <==> OneToOne(norm, tried))
            && (OneToOne(norm, tried) ==> Inverse(Of(After(norm, run, n), connection)))
            && (Inverse(Of(After(norm, run, n), connection)) <==> Inverse(LearnAll(norm, EMPTY, tried)))
  {
    hide OneToOne, LearnAll, Tried;
    var tried := Tried(norm, run, n, connection);
    MapsAreTried(norm, run, n, connection);
    InverseThroughoutExactly(norm, tried);
    if OneToOne(norm, tried) {
      OneToOneInverse(norm, tried);
    }
  }

  lemma NothingLearned(norm: string -> string)
    ensures Linked(norm, EMPTY)
    ensures forall lid :: Lookup(EMPTY.lidToPn, lid) == LastLearned(norm, [], lid) == None
  {
  }

  lemma IndexingKeepsLinks(norm: string -> string, s: LidState, c: Contact)
    ensures IndexContact(norm, s, c).lidToPn == s.lidToPn
    ensures Linked(norm, s) ==> Linked(norm, IndexContact(norm, s, c))
  {
  }

  // ---------------------------------------------------------------------------
  // Learned LIDs stay resolved
  // ---------------------------------------------------------------------------

  lemma MemoryKnows(norm: string -> string, s: LidState, lid: string)
    requires Normalizer(norm) && Linked(norm, s) && lid in s.lidToPn
    ensures ResolveToPn(norm, s, lid) == Resolution(s.lidToPn[lid], Some(lid), Memory)
    ensures !IsLid(s.lidToPn[lid])
  {
    hide IsLid;
    assert norm("") == "";
    assert IsLid(lid) && norm(lid) == lid;
    assert lid != "" by { if lid == "" { EmptyNoLid(); } }
  }

  lemma EmptyNoLid()
    ensures !IsLid("")
  {
  }

  lemma LidIsNoGroup(jid: string)
    requires IsLid(jid)
    ensures !IsGroup(jid)
  {
    var n := |jid|;
    assert jid[n - 4..][3] == jid[n - 1] == 'd';
    if n >= 5 { assert jid[n - 5..][4] == jid[n - 1]; }
  }

  /** A LID the connection has learned is resolved before the signal store is asked, whatever the key says. */
  lemma LearnedIsResolved(norm: string -> string, s: LidState, jid: string, key: Option<MessageKey>)
    requires Normalizer(norm) && Linked(norm, s) && norm(jid) in s.lidToPn
    ensures var early := ResolveEarly(norm, s, jid, key);
            && early.Some?
            && var r := early.value;
               && (r.via == Alt || r.via == Memory) && r.lid == Some(norm(jid))
               && r.jid != "" && !IsLid(r.jid) && norm(r.jid) == r.jid
  {
    hide IsLid, Linked, LearnAll, EarlyPairs, ResolveToPn, IsGroup;
    var n := norm(jid);
    var early := LearnAll(norm, s, EarlyPairs(norm, n, key));
    LearnedFacts(norm, s, n);
    LidIsNoGroup(n);
    LearnAllLinked(norm, s, EarlyPairs(norm, n, key));
    LearnAllLast(norm, s, EarlyPairs(norm, n, key), n);
    LearnedFacts(norm, early, n);
    MemoryKnows(norm, early, n);
    AltIsPhone(norm, n, key);
  }

  /** Whatever else happens, only clearing its connection makes a LID forgotten. */
  lemma {:induction false} LearnedStays(
    norm: string -> string, run: seq<Op>, i: nat, j: nat, connection: string, lid: string)
    requires i <= j <= |run| && lid in Of(After(norm, run, i), connection).lidToPn
    requires forall k | i <= k < j :: run[k] != Clear(connection)
    ensures lid in Of(After(norm, run, j), connection).lidToPn
    decreases j - i
  {
    hide LearnAll, OpPairs, IndexContact;
    if i < j {
      LearnedStays(norm, run, i, j - 1, connection, lid);
      var m, op := After(norm, run, j - 1), run[j - 1];
      if op.connection == connection {
        LearnAllLast(norm, Of(m, connection), OpPairs(norm, op), lid);
        if op.LearnContact? {
          IndexingKeepsLinks(norm, LearnAll(norm, Of(m, connection), OpPairs(norm, op)), op.contact);
        }
      } else {
        StepOthers(norm, m, op, connection);
      }
    }
  }

  /**
   * A LID learned at one step of a run, with no clearing of its connection since, is never
   * unresolved: a resolution begun then ends at once with a phone id, from its key or from memory.
   */
  lemma LearnedNeverUnresolved(
    norm: string -> string, run: seq<Op>, i: nat, j: nat, connection: string, jid: string, key: Option<MessageKey>)
    requires Normalizer(norm) && i < j <= |run| && run[i].connection == connection
    requires LastLearned(norm, OpPairs(norm, run[i]), norm(jid)).Some?
    requires forall k | i < k < j :: run[k] != Clear(connection)
    ensures var early := ResolveEarly(norm, Of(After(norm, run, j), connection), jid, key);
            && early.Some?
            && var r := early.value;
               && (r.via == Alt || r.via == Memory) && r.lid == Some(norm(jid))
               && r.jid != "" && !IsLid(r.jid) && norm(r.jid) == r.jid
  {
    hide LearnAll, OpPairs, IndexContact, ResolveEarly, Linked, IsLid;
    var m, op := After(norm, run, i), run[i];
    var learned := LearnAll(norm, Of(m, connection), OpPairs(norm, op));
    LearnAllLast(norm, Of(m, connection), OpPairs(norm, op), norm(jid));
    ClearLearnsNothing(norm, op, norm(jid));
    if op.LearnContact? { IndexingKeepsLinks(norm, learned, op.contact); }
    assert norm(jid) in Of(After(norm, run, i + 1), connection).lidToPn;
    LearnedStays(norm, run, i + 1, j, connection, norm(jid));
    ForwardIsLastLearned(norm, run, j, connection);
    LearnedIsResolved(norm, Of(After(norm, run, j), connection), jid, key);
  }

  lemma ClearLearnsNothing(norm: string -> string, op: Op, lid: string)
    ensures LastLearned(norm, OpPairs(norm, op), lid).Some? ==> !op.Clear?
  {
  }

  lemma LearnedFacts(norm: string -> string, s: LidState, lid: string)
    requires Linked(norm, s) && lid in s.lidToPn
    ensures IsLid(lid) && lid != "" && norm(lid) == lid && s.lidToPn[lid] != "" && norm(s.lidToPn[lid]) == s.lidToPn[lid]
  {
    if lid == "" { EmptyNoLid(); }
  }

  lemma AltIsPhone(norm: string -> string, lid: string, key: Option<MessageKey>)
    ensures var alt := AltPair(norm, lid, key); alt.Some? ==> !IsLid(Text(alt.value.pn))
  {
    hide IsLid;
  }

  /** A LID comes back unresolved exactly when no source knows a phone id for it when it is asked. */
  lemma UnresolvedExactly(
    norm: string -> string, s: LidState, jid: string, key: Option<MessageKey>, later: LidState, oracle: Jid)
    requires Normalizer(norm) && Linked(norm, s) && Linked(norm, later) && IsLid(norm(jid))
    ensures var n := norm(jid); var early := LearnAll(norm, s, EarlyPairs(norm, n, key));
            Resolve(norm, s, jid, key, later, oracle).via == Unresolved
            <==> && (AltPair(norm, n, key).Some? ==> norm(Text(AltPair(norm, n, key).value.pn)) == "")
                 && n !in early.lidToPn && !IsPhone(Lookup(early.contactPnByLid, n))
                 && !StoreAnswers(oracle)
                 && !IsPhone(Lookup(later.contactPnByLid, n)) && (n in later.contactPnByLid || n !in later.lidToPn)
  {
    hide IsLid, LearnAll, EarlyPairs, IsGroup, Linked;
    var n := norm(jid);
    var early := LearnAll(norm, s, EarlyPairs(norm, n, key));
    if n == "" { EmptyNoLid(); }
    LidIsNoGroup(n);
    LearnAllLinked(norm, s, EarlyPairs(norm, n, key));
    if n in early.lidToPn {
      LearnedFacts(norm, early, n);
      MemoryKnows(norm, early, n);
    }
    if n in later.lidToPn {
      LearnedFacts(norm, later, n);
      MemoryKnows(norm, later, n);
    }
  }

  /** A contact entry that gives a phone id. */
  predicate IsPhone(entry: Jid) {
    Text(entry) != "" && !IsLid(Text(entry))
  }

  // ---------------------------------------------------------------------------
  // The module's state
  // ---------------------------------------------------------------------------

  /** Per-connection maps, created on first use; an absent connection reads as an empty one. */
  class LidStore {
    const norm: string -> string
    var byConnection: Store

    constructor (norm: string -> string)
      ensures this.norm == norm && byConnection == map[]
    {
      this.norm := norm;
      byConnection := map[];
    }

    method LearnPair(connectionId: string, lidJid: Jid, pnJid: Jid)
      modifies this
      ensures byConnection == old(byConnection)[
                connectionId := Learn(norm, Of(old(byConnection), connectionId), lidJid, pnJid)]
    {
      var s := Of(byConnection, connectionId);
      byConnection := byConnection[connectionId := s];
      if Text(lidJid) == "" || Text(pnJid) == "" { return; }
      if !IsLid(Text(lidJid)) { return; }
      if IsLid(Text(pnJid)) { return; }
      var lid, pn := norm(Text(lidJid)), norm(Text(pnJid));
      if lid == "" || pn == "" { return; }
      if Lookup(s.lidToPn, lid) != Some(pn) {
        byConnection := byConnection[
          connectionId := s.(lidToPn := s.lidToPn[lid := pn], pnToLid := s.pnToLid[pn := lid])];
      }
    }

    method LearnPairs(connectionId: string, pairs: seq<Pair>)
      modifies this
      ensures byConnection == old(byConnection)[
                connectionId := LearnAll(norm, Of(old(byConnection), connectionId), pairs)]
    {
      byConnection := byConnection[connectionId := Of(byConnection, connectionId)];
      for n := 0 to |pairs|
        invariant byConnection == old(byConnection)[
                    connectionId := LearnAll(norm, Of(old(byConnection), connectionId), pairs[..n])]
      {
        assert pairs[..n + 1][..n] == pairs[..n];
        LearnPair(connectionId, pairs[n].lid, pairs[n].pn);
      }
      assert pairs[..|pairs|] == pairs;
    }

    method LearnFromMessageKey(connectionId: string, key: Option<MessageKey>)
      modifies this
      ensures byConnection == Step(norm, old(byConnection), LearnKey(connectionId, key))
    {
      LearnPairs(connectionId, KeyPairs(key));
    }

    method LearnFromContact(connectionId: string, contact: Contact)
      modifies this
      ensures byConnection == Step(norm, old(byConnection), LearnContact(connectionId, contact))
    {
      hide Learn, IsLid, Candidates, FirstLid, FirstPn;
      var start := Of(byConnection, connectionId);
      var own := Pair(FirstLid(Candidates(contact)), FirstPn(Candidates(contact)));
      if Indexed(norm, contact) {
        var lid, pn := ContactLid(norm, contact), norm(Text(contact.phoneNumber));
        var pair := Pair(Some(lid), Some(pn));
        LearnPair(connectionId, pair.lid, pair.pn);
        var s := byConnection[connectionId];
        LearnAllOne(norm, start, pair);
        LearnAllAppend(norm, start, [pair], [own]);
        LearnAllOne(norm, s, own);
        IndexingCommutes(norm, s, own, contact);
        byConnection := byConnection[connectionId := s.(contactPnByLid := s.contactPnByLid[lid := pn])];
      } else {
        LearnAllOne(norm, start, own);
        assert ContactPairs(norm, contact) == [own];
      }
      LearnPair(connectionId, own.lid, own.pn);
    }

    method ClearConnectionLidState(connectionId: string)
      modifies this
      ensures byConnection == Step(norm, old(byConnection), Clear(connectionId))
    {
      byConnection := byConnection - {connectionId};
    }

    /** Steps one and two: learn from the key, then look for a phone id beside the LID itself. */
    method LearnEarly(connectionId: string, n: string, key: Option<MessageKey>) returns (fromAlt: string)
      modifies this
      ensures byConnection == old(byConnection)[
                connectionId := LearnAll(norm, Of(old(byConnection), connectionId), EarlyPairs(norm, n, key))]
      ensures fromAlt == var alt := AltPair(norm, n, key); if alt.Some? then norm(Text(alt.value.pn)) else ""
    {
      hide LearnAll, KeyPairs, AltPair;
      LearnPairs(connectionId, KeyPairs(key));
      var alt := AltPair(norm, n, key);
      if alt.None? {
        assert EarlyPairs(norm, n, key) == KeyPairs(key);
        return "";
      }
      LearnAllAppend(norm, Of(old(byConnection), connectionId), KeyPairs(key), [alt.value]);
      LearnPairs(connectionId, [alt.value]);
      fromAlt := norm(Text(alt.value.pn));
    }

    /** A resolution up to its `await`. */
    method ResolveUntilAwait(connectionId: string, jid: string, key: Option<MessageKey>) returns (early: Option<Resolution>)
      modifies this
      ensures early == ResolveEarly(norm, Of(old(byConnection), connectionId), jid, key)
      ensures byConnection == Step(norm, old(byConnection), StartResolve(connectionId, jid, key))
    {
      hide LearnAll, IsLid, EarlyPairs, IsGroup, FromMemory, AltPair;
      var start := Of(byConnection, connectionId);
      byConnection := byConnection[connectionId := start];
      LearnNothing(norm, start);
      var n := norm(jid);
      if n == "" || IsGroup(n) { return Some(Resolution(if n != "" then n else jid, None, NotALid)); }
      if !IsLid(n) { return Some(Resolution(n, None, NotALid)); }
      var fromAlt := LearnEarly(connectionId, n, key);
      if fromAlt != "" { return Some(Resolution(fromAlt, Some(n), Alt)); }
      var memory := ResolveToPn(norm, byConnection[connectionId], n);
      if !IsLid(memory.jid) { return Some(Resolution(memory.jid, Some(n), Memory)); }
      early := None;
    }

    /** The rest of it, once the signal store has answered. */
    method ResolveAfterAwait(connectionId: string, n: string, oracle: Jid) returns (r: Resolution)
      modifies this
      ensures r == ResolveLate(norm, Of(old(byConnection), connectionId), n, oracle)
      ensures byConnection == Step(norm, old(byConnection), EndResolve(connectionId, n, oracle))
    {
      hide LearnAll, IsLid;
      var s := Of(byConnection, connectionId);
      LearnNothing(norm, s);
      if StoreAnswers(oracle) {
        LearnPairs(connectionId, [Pair(Some(n), Some(norm(Text(oracle))))]);
        return Resolution(norm(Text(oracle)), Some(n), SignalStore);
      }
      byConnection := byConnection[connectionId := s];
      var contact := GetContactPnByLid(norm, s, n);
      if Text(contact) != "" && !IsLid(Text(contact)) { return Resolution(norm(Text(contact)), Some(n), ByContact); }
      r := Resolution(n, Some(n), Unresolved);
    }

    /** One operation of another task. */
    method Apply(op: Op)
      modifies this
      ensures byConnection == Step(norm, old(byConnection), op)
    {
      match op
      case LearnMapping(c, pair) =>
        LearnAllOne(norm, Of(byConnection, c), pair);
        LearnPair(c, pair.lid, pair.pn);
      case LearnKey(c, key) => LearnFromMessageKey(c, key);
      case LearnContact(c, contact) => LearnFromContact(c, contact);
      case StartResolve(c, jid, key) => var early := ResolveUntilAwait(c, jid, key);
      case EndResolve(c, lid, oracle) => var r := ResolveAfterAwait(c, lid, oracle);
      case Clear(c) => ClearConnectionLidState(c);
    }

    /** `during` is what other tasks do to the store while the signal store is asked. */
    method ResolveIdentifierToPn(connectionId: string, jid: string, key: Option<MessageKey>, during: seq<Op>, oracle: Jid)
      returns (r: Resolution)
      modifies this
      ensures var started := Step(norm, old(byConnection), StartResolve(connectionId, jid, key));
              var early := ResolveEarly(norm, Of(old(byConnection), connectionId), jid, key);
              var later := Steps(norm, started, during);
              && r == Resolve(norm, Of(old(byConnection), connectionId), jid, key, Of(later, connectionId), oracle)
              && byConnection
                 == if early.Some? then started else Step(norm, later, EndResolve(connectionId, norm(jid), oracle))
    {
      hide Step, ResolveEarly, ResolveLate;
      var early := ResolveUntilAwait(connectionId, jid, key);
      if early.Some? { return early.value; }
      ghost var started := byConnection;
      for k := 0 to |during|
        invariant byConnection == Steps(norm, started, during[..k])
      {
        assert during[..k + 1][..k] == during[..k];
        Apply(during[k]);
      }
      assert during[..|during|] == during;
      r := ResolveAfterAwait(connectionId, norm(jid), oracle);
    }
  }

  lemma LearnNothing(norm: string -> string, s: LidState)
    ensures LearnAll(norm, s, []) == s
  {
  }

  lemma LearnAllOne(norm: string -> string, s: LidState, pair: Pair)
    ensures LearnAll(norm, s, [pair]) == Learn(norm, s, pair.lid, pair.pn)
  {
    assert [pair][..0] == [];
  }

  /** Learning a pair and indexing a contact touch different maps. */
  lemma IndexingCommutes(norm: string -> string, s: LidState, pair: Pair, c: Contact)
    ensures Learn(norm, IndexContact(norm, s, c), pair.lid, pair.pn)
            == IndexContact(norm, Learn(norm, s, pair.lid, pair.pn), c)
  {
    hide IsLid;
  }
}
