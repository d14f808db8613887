/**
 * What each source of `LidMapping` gives, told field by field: the pairs of a message key, a
 * contact, and the steps of a resolution.
 */
module LidSources {
  import opened LidMapping
  import opened Options

  // ---------------------------------------------------------------------------
  // Lists of pairs
  // ---------------------------------------------------------------------------

  /** The pair holds the LID `l` beside a phone id, both non-empty once normalized. */
  ghost predicate Holds(norm: string -> string, pair: Pair, l: string) {
    && pair.lid.Some? && pair.lid.value != "" && IsLid(pair.lid.value) && norm(pair.lid.value) == l && l != ""
    && pair.pn.Some? && pair.pn.value != "" && !IsLid(pair.pn.value) && norm(pair.pn.value) != ""
  }

  ghost predicate LastAt(norm: string -> string, pairs: seq<Pair>, i: nat, l: string) {
    i < |pairs| && Holds(norm, pairs[i], l) && forall j | i < j < |pairs| :: !Holds(norm, pairs[j], l)
  }

  ghost predicate NoneHolds(norm: string -> string, pairs: seq<Pair>, l: string) {
    forall i | 0 <= i < |pairs| :: !Holds(norm, pairs[i], l)
  }

  /** The last pair that holds a LID gives its phone id; of other LIDs nothing is learned. */
  ghost predicate LearnedFrom(norm: string -> string, before: LidState, pairs: seq<Pair>, after: LidState) {
    && (forall i: nat, l | LastAt(norm, pairs, i, l) :: Lookup(after.lidToPn, l) == Some(norm(Text(pairs[i].pn))))
    && (forall l | NoneHolds(norm, pairs, l) :: Lookup(after.lidToPn, l) == Lookup(before.lidToPn, l))
  }

  lemma HoldsIsLearnable(norm: string -> string, pair: Pair, l: string)
    ensures Holds(norm, pair, l) <==> Learnable(norm, pair.lid, pair.pn) && norm(Text(pair.lid)) == l
  {
    hide IsLid;
  }

  lemma LastAtBefore(norm: string -> string, pairs: seq<Pair>, i: nat, l: string)
    requires LastAt(norm, pairs, i, l)
    ensures if Holds(norm, pairs[|pairs| - 1], l) then i == |pairs| - 1
            else i < |pairs| - 1 && LastAt(norm, pairs[..|pairs| - 1], i, l)
  {
    hide Holds;
  }

  lemma NoneBefore(norm: string -> string, pairs: seq<Pair>, l: string)
    requires pairs != [] && NoneHolds(norm, pairs, l)
    ensures NoneHolds(norm, pairs[..|pairs| - 1], l) && !Holds(norm, pairs[|pairs| - 1], l)
  {
    hide Holds;
  }

  lemma {:induction false} LastLearnedIs(norm: string -> string, pairs: seq<Pair>, i: nat, l: string)
    requires LastAt(norm, pairs, i, l)
    ensures LastLearned(norm, pairs, l) == Some(norm(Text(pairs[i].pn)))
  {
    hide Learnable, Holds;
    LastAtBefore(norm, pairs, i, l);
    HoldsIsLearnable(norm, pairs[|pairs| - 1], l);
    if i < |pairs| - 1 {
      LastLearnedIs(norm, pairs[..|pairs| - 1], i, l);
    }
  }

  lemma {:induction false} NothingLearnedOf(norm: string -> string, pairs: seq<Pair>, l: string)
    requires NoneHolds(norm, pairs, l)
    ensures LastLearned(norm, pairs, l) == None
  {
    hide Learnable, Holds, NoneHolds;
    if pairs != [] {
      NoneBefore(norm, pairs, l);
      HoldsIsLearnable(norm, pairs[|pairs| - 1], l);
      NothingLearnedOf(norm, pairs[..|pairs| - 1], l);
    }
  }

  lemma LearnAllExactly(norm: string -> string, s: LidState, pairs: seq<Pair>)
    ensures LearnedFrom(norm, s, pairs, LearnAll(norm, s, pairs))
  {
    hide Holds, NoneHolds, LearnAll, LastLearned, Lookup;
    var after := LearnAll(norm, s, pairs);
    forall l ensures forall i: nat | LastAt(norm, pairs, i, l) :: Lookup(after.lidToPn, l) == Some(norm(Text(pairs[i].pn)))
      ensures NoneHolds(norm, pairs, l) ==> Lookup(after.lidToPn, l) == Lookup(s.lidToPn, l)
    {
      LearnAllLast(norm, s, pairs, l);
      forall i: nat | LastAt(norm, pairs, i, l) ensures LastLearned(norm, pairs, l) == Some(norm(Text(pairs[i].pn))) {
        LastLearnedIs(norm, pairs, i, l);
      }
      if NoneHolds(norm, pairs, l) { NothingLearnedOf(norm, pairs, l); }
    }
  }

  // ---------------------------------------------------------------------------
  // Message keys
  // ---------------------------------------------------------------------------

  /** The key holds this LID beside this phone id in one of its six pairs. */
  predicate HeldByKey(k: MessageKey, lid: Jid, pn: Jid) {
    || (lid == k.remoteJid && pn == k.remoteJidAlt) || (lid == k.remoteJidAlt && pn == k.remoteJid)
    || (lid == k.senderLid && pn == k.senderPn)
    || (lid == k.participant && pn == k.participantAlt) || (lid == k.participantAlt && pn == k.participant)
    || (lid == k.participantLid && pn == k.participantPn)
  }

  ghost predicate KeyGives(norm: string -> string, k: MessageKey, l: string, p: string) {
    exists lid, pn | HeldByKey(k, lid, pn) :: Holds(norm, Pair(lid, pn), l) && norm(Text(pn)) == p
  }

  lemma {:induction false} SomeLast(norm: string -> string, pairs: seq<Pair>, i: nat, l: string) returns (last: nat)
    requires i < |pairs| && Holds(norm, pairs[i], l)
    ensures LastAt(norm, pairs, last, l)
    decreases |pairs| - i
  {
    hide Holds;
    if j :| i < j < |pairs| && Holds(norm, pairs[j], l) {
      last := SomeLast(norm, pairs, j, l);
    } else {
      last := i;
    }
  }

  /**
   * A message key teaches its connection every LID that it holds beside a phone id in one of its
   * six pairs, with a phone id that stands beside it, and nothing of any other LID or connection.
   */
  lemma KeyExactly(norm: string -> string, m: Store, connection: string, k: MessageKey, l: string)
    ensures var after := Of(Step(norm, m, LearnKey(connection, Some(k))), connection);
            if exists p :: KeyGives(norm, k, l, p)
            then l in after.lidToPn && KeyGives(norm, k, l, after.lidToPn[l])
            else Lookup(after.lidToPn, l) == Lookup(Of(m, connection).lidToPn, l)
  {
    hide Holds, LastAt, LearnAll;
    var pairs := KeyPairs(Some(k));
    LearnAllExactly(norm, Of(m, connection), pairs);
    forall pair ensures pair in pairs <==> HeldByKey(k, pair.lid, pair.pn) {
      assert pair in pairs <==> exists i | 0 <= i < |pairs| :: pairs[i] == pair;
    }
    if p :| KeyGives(norm, k, l, p) {
      var lid, pn :| HeldByKey(k, lid, pn) && Holds(norm, Pair(lid, pn), l) && norm(Text(pn)) == p;
      var i :| 0 <= i < |pairs| && pairs[i] == Pair(lid, pn);
      var last := SomeLast(norm, pairs, i, l);
      LastHolds(norm, pairs, last, l);
      assert pairs[last] in pairs;
      assert KeyGives(norm, k, l, norm(Text(pairs[last].pn)));
    }
    forall i | 0 <= i < |pairs| && Holds(norm, pairs[i], l) ensures exists p :: KeyGives(norm, k, l, p) {
      assert pairs[i] in pairs;
      assert KeyGives(norm, k, l, norm(Text(pairs[i].pn)));
    }
  }

  lemma LastHolds(norm: string -> string, pairs: seq<Pair>, i: nat, l: string)
    requires LastAt(norm, pairs, i, l)
    ensures i < |pairs| && Holds(norm, pairs[i], l)
  {
  }

  // ---------------------------------------------------------------------------
  // Contacts
  // ---------------------------------------------------------------------------

  /** The first of the three ids, in this order, that is a LID; and that is a phone id. */
  ghost predicate FirstOf(c: Contact, want: string -> bool, found: Jid) {
    var fits := (j: Jid) => j.Some? && j.value != "" && want(j.value);
    if fits(c.id) then found == c.id else if fits(c.lid) then found == c.lid else if fits(c.jid) then found == c.jid
    else found == None
  }

  predicate IsPhoneUser(jid: string) {
    EndsWith(jid, "@s.whatsapp.net") || EndsWith(jid, "@c.us")
  }

  /** The phone number of a contact is indexed under its `lid`, else under its `id` when that is a LID. */
  ghost predicate NumberOf(norm: string -> string, c: Contact, lid: string, pn: string) {
    && c.phoneNumber.Some? && c.phoneNumber.value != "" && pn == norm(c.phoneNumber.value) && pn != "" && lid != ""
    && if c.lid.Some? && c.lid.value != "" && norm(c.lid.value) != "" then lid == norm(c.lid.value)
       else c.id.Some? && IsLid(c.id.value) && lid == norm(c.id.value)
  }

  lemma LastChar(s: string, suffix: string)
    requires suffix != ""
    ensures EndsWith(s, suffix) ==> s != "" && s[|s| - 1] == suffix[|suffix| - 1]
  {
    if EndsWith(s, suffix) {
      assert s[|s| - |suffix|..][|suffix| - 1] == s[|s| - 1];
    }
  }

  lemma UserIsPhone(jid: string)
    ensures !IsLid(jid) && IsUser(jid) <==> IsPhoneUser(jid)
  {
    LastChar(jid, "@lid");
    LastChar(jid, "@s.whatsapp.net");
    LastChar(jid, "@c.us");
    assert "@lid"[3] == 'd' && "@s.whatsapp.net"[14] == 't' && "@c.us"[4] == 's';
  }

  /** An id that is there, as a list. */
  function Present(j: Jid): seq<string> {
    if Text(j) != "" then [Text(j)] else []
  }

  lemma FirstAdds(j: Jid, rest: seq<string>)
    ensures FirstLid(Present(j) + rest) == if Text(j) != "" && IsLid(Text(j)) then j else FirstLid(rest)
    ensures FirstPn(Present(j) + rest) == if Text(j) != "" && IsPhoneUser(Text(j)) then j else FirstPn(rest)
  {
    hide IsLid, IsUser, IsPhoneUser;
    UserIsPhone(Text(j));
    if Text(j) == "" {
      assert Present(j) + rest == rest;
    } else {
      assert (Present(j) + rest)[1..] == rest;
    }
  }

  lemma CandidatesExactly(c: Contact)
    ensures FirstOf(c, IsLid, FirstLid(Candidates(c))) && FirstOf(c, IsPhoneUser, FirstPn(Candidates(c)))
  {
    hide IsLid, IsPhoneUser, FirstLid, FirstPn;
    FirstAdds(c.id, Present(c.lid) + (Present(c.jid) + []));
    FirstAdds(c.lid, Present(c.jid) + []);
    FirstAdds(c.jid, []);
    NoCandidates();
    assert Candidates(c) == Present(c.id) + (Present(c.lid) + (Present(c.jid) + []));
  }

  lemma NoCandidates()
    ensures FirstLid([]) == None && FirstPn([]) == None
  {
  }

  /** The two pairs of a contact: its number, when it has one, and then its ids among themselves. */
  ghost predicate ContactHolds(norm: string -> string, c: Contact, numbered: bool, lid: Jid, pn: Jid) {
    if numbered then lid.Some? && pn.Some? && NumberOf(norm, c, lid.value, pn.value)
    else FirstOf(c, IsLid, lid) && FirstOf(c, IsPhoneUser, pn)
  }

  /** What a contact leaves of a LID: the phone id among its own ids, else its number, else what was there. */
  ghost predicate ContactTeaches(norm: string -> string, before: LidState, c: Contact, after: LidState, l: string) {
    && (forall lid, pn | ContactHolds(norm, c, false, lid, pn) && Holds(norm, Pair(lid, pn), l) ::
          Lookup(after.lidToPn, l) == Some(norm(Text(pn))))
    && (forall own, ownPn, lid, pn | ContactHolds(norm, c, false, own, ownPn) && !Holds(norm, Pair(own, ownPn), l)
                                     && ContactHolds(norm, c, true, lid, pn) && Holds(norm, Pair(lid, pn), l) ::
          Lookup(after.lidToPn, l) == Some(norm(Text(pn))))
    && ((forall numbered, lid, pn | ContactHolds(norm, c, numbered, lid, pn) :: !Holds(norm, Pair(lid, pn), l)) ==>
          Lookup(after.lidToPn, l) == Lookup(before.lidToPn, l))
  }

  /** A contact's number is indexed under its LID, and no other entry of the index changes. */
  ghost predicate ContactIndexed(norm: string -> string, before: LidState, c: Contact, after: LidState, l: string) {
    && (forall pn | NumberOf(norm, c, l, pn) :: Lookup(after.contactPnByLid, l) == Some(pn))
    && ((forall pn :: !NumberOf(norm, c, l, pn)) ==>
          Lookup(after.contactPnByLid, l) == Lookup(before.contactPnByLid, l))
  }

  lemma NumberExactly(norm: string -> string, c: Contact)
    ensures Indexed(norm, c) ==> NumberOf(norm, c, ContactLid(norm, c), norm(Text(c.phoneNumber)))
    ensures forall lid, pn | NumberOf(norm, c, lid, pn) ::
              Indexed(norm, c) && lid == ContactLid(norm, c) && pn == norm(Text(c.phoneNumber))
  {
    if c.id.None? { EmptyNoLid(); }
    hide IsLid;
  }

  lemma FirstIsOne(c: Contact, want: string -> bool, a: Jid, b: Jid)
    requires FirstOf(c, want, a) && FirstOf(c, want, b)
    ensures a == b
  {
  }

  lemma ContactPairsExactly(norm: string -> string, c: Contact)
    ensures var own := ContactPairs(norm, c)[|ContactPairs(norm, c)| - 1];
            && ContactHolds(norm, c, false, own.lid, own.pn)
            && (forall lid, pn | ContactHolds(norm, c, false, lid, pn) :: Pair(lid, pn) == own)
            && (Indexed(norm, c) ==>
                  && |ContactPairs(norm, c)| == 2
                  && ContactHolds(norm, c, true, ContactPairs(norm, c)[0].lid, ContactPairs(norm, c)[0].pn)
                  && forall lid, pn | ContactHolds(norm, c, true, lid, pn) :: Pair(lid, pn) == ContactPairs(norm, c)[0])
            && (!Indexed(norm, c) ==>
                  |ContactPairs(norm, c)| == 1 && forall lid, pn :: !ContactHolds(norm, c, true, lid, pn))
  {
    hide Indexed, ContactLid, NumberOf, FirstOf, IsLid, IsPhoneUser, FirstLid, FirstPn, Candidates;
    NumberExactly(norm, c);
    CandidatesExactly(c);
    forall lid, pn | ContactHolds(norm, c, false, lid, pn)
      ensures Pair(lid, pn) == Pair(FirstLid(Candidates(c)), FirstPn(Candidates(c)))
    {
      FirstIsOne(c, IsLid, lid, FirstLid(Candidates(c)));
      FirstIsOne(c, IsPhoneUser, pn, FirstPn(Candidates(c)));
    }
  }

  lemma ContactExactly(norm: string -> string, m: Store, connection: string, c: Contact, l: string)
    ensures var before, after := Of(m, connection), Of(Step(norm, m, LearnContact(connection, c)), connection);
            ContactTeaches(norm, before, c, after, l) && ContactIndexed(norm, before, c, after, l)
  {
    hide Holds, ContactHolds, LearnAll, NumberOf, Indexed, ContactLid, ContactPairs;
    var s, pairs := Of(m, connection), ContactPairs(norm, c);
    ContactPairsExactly(norm, c);
    LearnAllExactly(norm, s, pairs);
    NumberExactly(norm, c);
    LearnAllContacts(norm, s, pairs);
    assert LastAt(norm, pairs, |pairs| - 1, l) <==> Holds(norm, pairs[|pairs| - 1], l);
    if Indexed(norm, c) {
      assert LastAt(norm, pairs, 0, l) <==> Holds(norm, pairs[0], l) && !Holds(norm, pairs[1], l);
    }
  }

  lemma {:induction false} LearnAllContacts(norm: string -> string, s: LidState, pairs: seq<Pair>)
    ensures LearnAll(norm, s, pairs).contactPnByLid == s.contactPnByLid
  {
    hide Learnable;
    if pairs != [] {
      LearnAllContacts(norm, s, pairs[..|pairs| - 1]);
    }
  }

  // ---------------------------------------------------------------------------
  // Resolutions
  // ---------------------------------------------------------------------------

  /** The LID `n` stands in `a`, beside an id `b` that is no LID. */
  ghost predicate Beside(norm: string -> string, n: string, a: Jid, b: Jid) {
    a.Some? && a.value != "" && norm(a.value) == n && b.Some? && b.value != "" && !IsLid(b.value)
  }

  /** The id beside the LID in the key: the chat's two ids first, either way round, then the participant's. */
  ghost predicate AltPhone(norm: string -> string, key: Option<MessageKey>, n: string, b: Jid) {
    key.Some? && var k := key.value;
    if Beside(norm, n, k.remoteJid, k.remoteJidAlt) then b == k.remoteJidAlt
    else if Beside(norm, n, k.remoteJidAlt, k.remoteJid) then b == k.remoteJid
    else if Beside(norm, n, k.participant, k.participantAlt) then b == k.participantAlt
    else Beside(norm, n, k.participantAlt, k.participant) && b == k.participant
  }

  predicate IsPhoneId(p: string) {
    p != "" && !IsLid(p)
  }

  /** The learned map before the contact index. */
  predicate InMemory(s: LidState, n: string, p: string) {
    IsPhoneId(p) && Lookup(if n in s.lidToPn then s.lidToPn else s.contactPnByLid, n) == Some(p)
  }

  /** The contact index before the learned map. */
  predicate InContacts(s: LidState, n: string, p: string) {
    IsPhoneId(p) && Lookup(if n in s.contactPnByLid then s.contactPnByLid else s.lidToPn, n) == Some(p)
  }

  ghost predicate NoAlt(norm: string -> string, key: Option<MessageKey>, n: string) {
    forall b | AltPhone(norm, key, n, b) :: norm(Text(b)) == ""
  }

  ghost predicate Unknown(early: LidState, n: string) {
    forall p :: !InMemory(early, n, p)
  }

  /** The answer to a LID: the key's phone id, else memory's, else the signal store's, else the contacts', else the LID. */
  ghost predicate Answered(
    norm: string -> string, n: string, key: Option<MessageKey>, early: LidState, later: LidState, oracle: Jid, r: Resolution)
  {
    var stored, quiet := oracle.Some? && IsPhoneId(oracle.value), NoAlt(norm, key, n) && Unknown(early, n);
    && (forall b | AltPhone(norm, key, n, b) && norm(Text(b)) != "" :: r == Resolution(norm(Text(b)), Some(n), Alt))
    && (NoAlt(norm, key, n) ==> forall p | InMemory(early, n, p) :: r == Resolution(norm(p), Some(n), Memory))
    && (quiet && stored ==> r == Resolution(norm(oracle.value), Some(n), SignalStore))
    && (quiet && !stored ==> forall p | InContacts(later, n, p) :: r == Resolution(norm(p), Some(n), ByContact))
    && (quiet && !stored && (forall p :: !InContacts(later, n, p)) ==> r == Resolution(n, Some(n), Unresolved))
  }

  lemma AltExactly(norm: string -> string, key: Option<MessageKey>, n: string)
    requires Normalizer(norm) && IsLid(n)
    ensures var alt := AltPair(norm, n, key);
            && (alt.Some? ==> AltPhone(norm, key, n, alt.value.pn))
            && (forall b | AltPhone(norm, key, n, b) :: alt.Some? && alt.value.pn == b)
  {
    hide IsLid;
  }

  lemma MemoryExactly(norm: string -> string, s: LidState, n: string)
    requires Normalizer(norm) && IsLid(n) && norm(n) == n
    ensures var r := ResolveToPn(norm, s, n);
            && (forall p | InMemory(s, n, p) :: r == Resolution(norm(p), Some(n), Memory) && !IsLid(r.jid))
            && (Unknown(s, n) ==> r == Resolution(n, Some(n), Unresolved))
  {
    if n == "" { EmptyNoLid(); }
    hide IsLid;
    var mapped := Lookup(if n in s.lidToPn then s.lidToPn else s.contactPnByLid, n);
    assert FromMemory(norm, s, n).Some? ==> InMemory(s, n, Text(mapped));
  }

  lemma ContactsExactly(norm: string -> string, s: LidState, n: string, oracle: Jid)
    requires Normalizer(norm) && norm(n) == n
    ensures var r := ResolveLate(norm, s, n, oracle); var stored := oracle.Some? && IsPhoneId(oracle.value);
            && (stored ==> r == Resolution(norm(oracle.value), Some(n), SignalStore))
            && (!stored ==> forall p | InContacts(s, n, p) :: r == Resolution(norm(p), Some(n), ByContact))
            && (!stored && (forall p :: !InContacts(s, n, p)) ==> r == Resolution(n, Some(n), Unresolved))
  {
    hide IsLid;
    var contact := GetContactPnByLid(norm, s, n);
    assert IsPhoneId(Text(contact)) ==> InContacts(s, n, Text(contact));
  }

  /** What a LID resolves to, whatever happened to the store while the signal store was asked. */
  lemma ResolvedExactly(
    norm: string -> string, s: LidState, jid: string, key: Option<MessageKey>, later: LidState, oracle: Jid)
    requires Normalizer(norm) && IsLid(norm(jid))
    ensures var n := norm(jid);
            Answered(norm, n, key, LearnAll(norm, s, EarlyPairs(norm, n, key)), later, oracle,
                     Resolve(norm, s, jid, key, later, oracle))
  {
    hide IsLid, IsGroup, LearnAll, EarlyPairs, AltPair, ResolveToPn, ResolveLate, InMemory, InContacts, AltPhone, IsPhoneId;
    var n := norm(jid);
    if n == "" { EmptyNoLid(); }
    LidIsNoGroup(n);
    AltExactly(norm, key, n);
    MemoryExactly(norm, LearnAll(norm, s, EarlyPairs(norm, n, key)), n);
    ContactsExactly(norm, later, n, oracle);
  }

  /** Anything else is its own answer. */
  lemma OthersResolveToThemselves(
    norm: string -> string, s: LidState, jid: string, key: Option<MessageKey>, later: LidState, oracle: Jid)
    requires !IsLid(norm(jid))
    ensures Resolve(norm, s, jid, key, later, oracle)
            == Resolution(if norm(jid) == "" then jid else norm(jid), None, NotALid)
  {
  }
}
