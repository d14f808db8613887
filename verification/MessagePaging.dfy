/**
 * Keyset paging of conversation messages (backend/src/repositories/conversations.ts) and of agent
 * messages (backend/src/repositories/agent-messages.ts). A table is a list of rows in no
 * particular order; the readers filter, order, limit, slice and reverse it.
 */
module MessagePaging {
  import opened Options

  /** `parentId` is the conversation or the agent session; ids compare as 128-bit numbers, times count microseconds. */
  datatype Row = Row(
    id: nat, workspaceId: string, parentId: string, status: Option<string>, createdAt: int, content: string)

  datatype Cursor = Cursor(createdAt: int, id: nat)

  datatype Page = Page(messages: seq<Row>, hasMoreOlderMessages: bool)

  /** A requested page size as it arrives: possibly not a finite number. */
  datatype Requested = Finite(value: real) | NotFinite

  const DEFAULT_MESSAGES_PAGE_SIZE: nat := 50
  const MAX_MESSAGES_PAGE_SIZE: nat := 100
  const DEFAULT_AGENT_MESSAGES_PAGE_SIZE: nat := 100
  const MAX_AGENT_MESSAGES_PAGE_SIZE: nat := 200

  function Clamp(requested: Requested, byDefault: nat, most: nat): nat {
    if requested.NotFinite? || requested.value < 1.0 then byDefault
    else if requested.value.Floor > most then most else requested.value.Floor
  }

  /** A page size is always usable, and a whole number within range is taken as it is. */
  lemma ClampInRange(requested: Requested, n: nat, byDefault: nat, most: nat)
    requires 1 <= byDefault <= most
    ensures 1 <= Clamp(requested, byDefault, most) <= most
    ensures 1 <= n <= most ==> Clamp(Finite(n as real), byDefault, most) == n
  {
    if requested.Finite? && requested.value >= 1.0 {
      assert requested.value.Floor >= 1;
    }
  }

  /** The default without a usable number, otherwise the whole part of it, or the maximum if that is less. */
  lemma ClampExactly(requested: Requested, byDefault: nat, most: nat)
    requires 1 <= byDefault <= most
    ensures var size := Clamp(requested, byDefault, most);
            && (requested.NotFinite? || requested.value < 1.0 ==> size == byDefault)
            && (requested.Finite? && requested.value >= 1.0 ==>
                  && size <= most && size as real <= requested.value
                  && (size == most || requested.value < size as real + 1.0))
  {
  }

  // ---------------------------------------------------------------------------
  // The query
  // ---------------------------------------------------------------------------

  function CursorOf(r: Row): Cursor {
    Cursor(r.createdAt, r.id)
  }

  /** The keyset condition: older, or equally old with a smaller id. */
  predicate OlderThan(r: Row, c: Cursor) {
    r.createdAt < c.createdAt || (r.createdAt == c.createdAt && r.id < c.id)
  }

  predicate Older(r: Row, s: Row) {
    OlderThan(r, CursorOf(s))
  }

  function Before(rows: seq<Row>, c: Cursor): seq<Row> {
    if rows == [] then []
    else if OlderThan(rows[0], c) then [rows[0]] + Before(rows[1..], c)
    else Before(rows[1..], c)
  }

  function Insert(r: Row, ordered: seq<Row>): seq<Row> {
    if ordered == [] || Older(ordered[0], r) then [r] + ordered
    else [ordered[0]] + Insert(r, ordered[1..])
  }

  /** `ORDER BY created_at DESC, id DESC`. */
  function OrderDesc(rows: seq<Row>): seq<Row> {
    if rows == [] then [] else Insert(rows[0], OrderDesc(rows[1..]))
  }

  function Reverse(s: seq<Row>): seq<Row> {
    if s == [] then [] else Reverse(s[1..]) + [s[0]]
  }

  function Limit(s: seq<Row>, n: nat): seq<Row> {
    if |s| <= n then s else s[..n]
  }

  /** One fetch of `capped` rows: ask for one more, slice it off, and turn the rest around. */
  function Fetch(rows: seq<Row>, capped: nat, before: Option<Cursor>): Page {
    var selected := if before.Some? then Before(rows, before.value) else rows;
    var fetched := Limit(OrderDesc(selected), capped + 1);
    var hasMore := |fetched| > capped;
    Page(Reverse(if hasMore then fetched[..capped] else fetched), hasMore)
  }

  function Visible(table: seq<Row>, workspaceId: string, conversationId: string): seq<Row> {
    if table == [] then []
    else if table[0].workspaceId == workspaceId && table[0].parentId == conversationId
            && (table[0].status.None? || table[0].status.value == "dry_run")
    then [table[0]] + Visible(table[1..], workspaceId, conversationId)
    else Visible(table[1..], workspaceId, conversationId)
  }

  function OfSession(table: seq<Row>, workspaceId: string, sessionId: string): seq<Row> {
    if table == [] then []
    else if table[0].workspaceId == workspaceId && table[0].parentId == sessionId
    then [table[0]] + OfSession(table[1..], workspaceId, sessionId)
    else OfSession(table[1..], workspaceId, sessionId)
  }

  function ListConversationMessagesLatestPage(
    table: seq<Row>, workspaceId: string, conversationId: string, limit: Requested): Page
  {
    Fetch(Visible(table, workspaceId, conversationId),
          Clamp(limit, DEFAULT_MESSAGES_PAGE_SIZE, MAX_MESSAGES_PAGE_SIZE), None)
  }

  function ListConversationMessagesOlderPage(
    table: seq<Row>, workspaceId: string, conversationId: string, limit: Requested, before: Cursor): Page
  {
    Fetch(Visible(table, workspaceId, conversationId),
          Clamp(limit, DEFAULT_MESSAGES_PAGE_SIZE, MAX_MESSAGES_PAGE_SIZE), Some(before))
  }

  /** `before` is absent when either half of the cursor is blank or its date does not parse. */
  function ListAgentMessagesPage(
    table: seq<Row>, workspaceId: string, sessionId: string, limit: Option<Requested>, before: Option<Cursor>): Page
  {
    Fetch(OfSession(table, workspaceId, sessionId),
          Clamp(if limit.Some? then limit.value else NotFinite,
                DEFAULT_AGENT_MESSAGES_PAGE_SIZE, MAX_AGENT_MESSAGES_PAGE_SIZE), before)
  }

  // ---------------------------------------------------------------------------
  // The plain sorted list
  // ---------------------------------------------------------------------------

  ghost predicate UniqueIds(rows: seq<Row>) {
    forall i, j | 0 <= i < j < |rows| :: rows[i].id != rows[j].id
  }

  ghost predicate Descending(s: seq<Row>) {
    forall i, j | 0 <= i < j < |s| :: Older(s[j], s[i])
  }

  ghost predicate Ascending(s: seq<Row>) {
    forall i, j | 0 <= i < j < |s| :: Older(s[i], s[j])
  }

  /** All rows, each as often as in the table, oldest first. */
  function Listing(rows: seq<Row>): seq<Row> {
    Reverse(OrderDesc(rows))
  }

  lemma {:induction false} InsertLaws(r: Row, s: seq<Row>)
    ensures multiset(Insert(r, s)) == multiset(s) + multiset{r} && |Insert(r, s)| == |s| + 1
  {
    if s != [] && !Older(s[0], r) {
      InsertLaws(r, s[1..]);
      assert s == [s[0]] + s[1..];
    }
  }

  lemma {:induction false} InsertDescending(r: Row, s: seq<Row>)
    requires Descending(s) && forall x <- s :: x.id != r.id
    ensures Descending(Insert(r, s))
  {
    if s != [] {
      if Older(s[0], r) {
        assert forall j | 0 <= j < |s| :: Older(s[j], r);
      } else {
        InsertDescending(r, s[1..]);
        var tail := Insert(r, s[1..]);
        forall j | 0 <= j < |tail| ensures Older(tail[j], s[0]) {
          InsertLaws(r, s[1..]);
          assert tail[j] in multiset(tail);
          assert s[0] in s;
        }
      }
    }
  }

  lemma {:induction false} OrderLaws(rows: seq<Row>)
    ensures multiset(OrderDesc(rows)) == multiset(rows) && |OrderDesc(rows)| == |rows|
  {
    if rows != [] {
      OrderLaws(rows[1..]);
      InsertLaws(rows[0], OrderDesc(rows[1..]));
      assert rows == [rows[0]] + rows[1..];
    }
  }

  lemma SameMembers(a: seq<Row>, b: seq<Row>, r: Row)
    requires multiset(a) == multiset(b)
    ensures r in a <==> r in b
  {
    assert r in a <==> r in multiset(a);
    assert r in b <==> r in multiset(b);
  }

  lemma {:induction false} OrderDescending(rows: seq<Row>)
    requires UniqueIds(rows)
    ensures Descending(OrderDesc(rows))
  {
    if rows != [] {
      OrderDescending(rows[1..]);
      OrderLaws(rows[1..]);
      forall x <- OrderDesc(rows[1..]) ensures x.id != rows[0].id {
        SameMembers(OrderDesc(rows[1..]), rows[1..], x);
      }
      InsertDescending(rows[0], OrderDesc(rows[1..]));
    }
  }

  lemma {:induction false} ReverseLaws(s: seq<Row>)
    ensures |Reverse(s)| == |s| && forall i | 0 <= i < |s| :: Reverse(s)[i] == s[|s| - 1 - i]
    ensures multiset(Reverse(s)) == multiset(s)
  {
    if s != [] {
      ReverseLaws(s[1..]);
      assert s == [s[0]] + s[1..];
    }
  }

  /** The listing is the plain sorted list: same rows, strictly ascending in time and id. */
  lemma ListingIsSorted(rows: seq<Row>)
    requires UniqueIds(rows)
    ensures Ascending(Listing(rows)) && multiset(Listing(rows)) == multiset(rows)
  {
    OrderLaws(rows);
    OrderDescending(rows);
    ReverseLaws(OrderDesc(rows));
  }

  /** A descending list is determined by its members. */
  lemma {:induction false} DescendingUnique(a: seq<Row>, b: seq<Row>)
    requires Descending(a) && Descending(b) && forall r :: r in a <==> r in b
    ensures a == b
  {
    assert a != [] ==> a[0] in a && a[0] in b;
    assert b != [] ==> b[0] in b && b[0] in a;
    if a != [] {
      assert a[0] in b && b[0] in a;
      assert a[0] == b[0];
      forall r ensures r in a[1..] <==> r in b[1..] {
        assert r in a <==> r == a[0] || r in a[1..];
        assert r in b <==> r == b[0] || r in b[1..];
      }
      DescendingUnique(a[1..], b[1..]);
    }
  }

  lemma {:induction false} BeforeMembers(rows: seq<Row>, c: Cursor)
    ensures forall r :: r in Before(rows, c) <==> r in rows && OlderThan(r, c)
  {
    if rows != [] {
      BeforeMembers(rows[1..], c);
      assert rows == [rows[0]] + rows[1..];
    }
  }

  lemma {:induction false} BeforeDescending(rows: seq<Row>, c: Cursor)
    requires Descending(rows)
    ensures Descending(Before(rows, c))
  {
    if rows != [] {
      BeforeMembers(rows[1..], c);
      BeforeDescending(rows[1..], c);
      var tail := Before(rows[1..], c);
      assert forall i | 0 <= i < |tail| :: tail[i] in tail;
    }
  }

  lemma {:induction false} BeforeUnique(rows: seq<Row>, c: Cursor)
    requires UniqueIds(rows)
    ensures UniqueIds(Before(rows, c))
  {
    if rows != [] {
      BeforeMembers(rows[1..], c);
      BeforeUnique(rows[1..], c);
      var tail := Before(rows[1..], c);
      assert forall i | 0 <= i < |tail| :: tail[i] in tail;
    }
  }

  lemma BeforeLaws(rows: seq<Row>, c: Cursor)
    ensures forall r :: r in Before(rows, c) <==> r in rows && OlderThan(r, c)
    ensures Descending(rows) ==> Descending(Before(rows, c))
    ensures UniqueIds(rows) ==> UniqueIds(Before(rows, c))
  {
    hide Before, Descending, UniqueIds;
    BeforeMembers(rows, c);
    if Descending(rows) { BeforeDescending(rows, c); }
    if UniqueIds(rows) { BeforeUnique(rows, c); }
  }

  /** In a descending list, the rows before the cursor at `i` are exactly the rest after `i`. */
  lemma {:induction false} BeforeIsRest(s: seq<Row>, i: nat)
    requires Descending(s) && i < |s|
    ensures Before(s, CursorOf(s[i])) == s[i + 1..]
  {
    if i > 0 {
      BeforeIsRest(s[1..], i - 1);
      assert s[1..][i - 1] == s[i];
      assert !OlderThan(s[0], CursorOf(s[i])) by {
        assert Older(s[i], s[0]);
      }
    } else {
      BeforeAll(s[1..], CursorOf(s[0]));
    }
  }

  lemma {:induction false} BeforeAll(s: seq<Row>, c: Cursor)
    requires forall i | 0 <= i < |s| :: OlderThan(s[i], c)
    ensures Before(s, c) == s
  {
    if s != [] {
      BeforeAll(s[1..], c);
    }
  }

  /** Ordering the rows before a cursor is cutting the ordered list at it. */
  lemma OrderBefore(rows: seq<Row>, c: Cursor)
    requires UniqueIds(rows)
    ensures OrderDesc(Before(rows, c)) == Before(OrderDesc(rows), c)
  {
    hide OrderDesc, Before;
    var a, b := OrderDesc(Before(rows, c)), Before(OrderDesc(rows), c);
    BeforeLaws(rows, c);
    OrderDescending(Before(rows, c));
    OrderDescending(rows);
    BeforeLaws(OrderDesc(rows), c);
    OrderLaws(rows);
    OrderLaws(Before(rows, c));
    forall r ensures r in a <==> r in b {
      SameMembers(a, Before(rows, c), r);
      SameMembers(OrderDesc(rows), rows, r);
    }
    DescendingUnique(a, b);
  }

  // ---------------------------------------------------------------------------
  // Following the cursor
  // ---------------------------------------------------------------------------

  function Selected(rows: seq<Row>, before: Option<Cursor>): seq<Row> {
    if before.Some? then Before(rows, before.value) else rows
  }

  /** A page is the newest `capped` of the selected rows; the flag tells whether rows remain. */
  lemma FetchIsChunk(rows: seq<Row>, capped: nat, before: Option<Cursor>)
    ensures var d := OrderDesc(Selected(rows, before)); var page := Fetch(rows, capped, before);
            && page.messages == Reverse(Limit(d, capped))
            && (page.hasMoreOlderMessages <==> |d| > capped)
  {
    var d := OrderDesc(Selected(rows, before));
    if |d| > capped {
      assert d[..capped + 1][..capped] == d[..capped];
    }
  }

  /** The rows left after a full page, in order. */
  lemma NextSelection(rows: seq<Row>, capped: nat, before: Option<Cursor>)
    requires UniqueIds(rows) && capped >= 1 && Fetch(rows, capped, before).hasMoreOlderMessages
    ensures Fetch(rows, capped, before).messages != []
    ensures var next := CursorOf(Fetch(rows, capped, before).messages[0]);
            && OrderDesc(Before(rows, next)) == OrderDesc(Selected(rows, before))[capped..]
            && |Before(rows, next)| < |Selected(rows, before)|
  {
    hide OrderDesc, Before, Reverse;
    var d := OrderDesc(Selected(rows, before));
    FetchIsChunk(rows, capped, before);
    ReverseLaws(d[..capped]);
    var oldest := d[capped - 1];
    assert Fetch(rows, capped, before).messages[0] == oldest;
    BeforeTwice(rows, before, oldest);
    SelectedUnique(rows, before);
    OrderDescending(Selected(rows, before));
    OrderBefore(Selected(rows, before), CursorOf(oldest));
    BeforeIsRest(d, capped - 1);
    OrderLaws(Selected(rows, before));
    OrderLaws(Before(rows, CursorOf(oldest)));
    assert |d| == |Selected(rows, before)| && |Before(rows, CursorOf(oldest))| == |d[capped..]|;
  }

  lemma SelectedUnique(rows: seq<Row>, before: Option<Cursor>)
    requires UniqueIds(rows)
    ensures UniqueIds(Selected(rows, before))
  {
    if before.Some? { BeforeLaws(rows, before.value); }
  }

  /** The oldest row of a page lies before the page's cursor, so the next cursor includes it. */
  lemma BeforeTwice(rows: seq<Row>, before: Option<Cursor>, oldest: Row)
    requires oldest in OrderDesc(Selected(rows, before))
    ensures Before(Selected(rows, before), CursorOf(oldest)) == Before(rows, CursorOf(oldest))
  {
    OrderLaws(Selected(rows, before));
    SameMembers(OrderDesc(Selected(rows, before)), Selected(rows, before), oldest);
    if before.Some? {
      BeforeLaws(rows, before.value);
      BeforeBefore(rows, before.value, CursorOf(oldest));
    }
  }

  lemma {:induction false} BeforeBefore(rows: seq<Row>, c: Cursor, d: Cursor)
    requires d.createdAt < c.createdAt || (d.createdAt == c.createdAt && d.id < c.id)
    ensures Before(Before(rows, c), d) == Before(rows, d)
  {
    if rows != [] {
      BeforeBefore(rows[1..], c, d);
    }
  }

  /** Every page of a reader that keeps asking for the page before the oldest row it has. */
  function Follow(rows: seq<Row>, capped: nat, before: Option<Cursor>): seq<Page>
    requires UniqueIds(rows) && capped >= 1
    decreases |Selected(rows, before)|
  {
    var page := Fetch(rows, capped, before);
    if !page.hasMoreOlderMessages then [page]
    else
      NextSelection(rows, capped, before);
      [page] + Follow(rows, capped, Some(CursorOf(page.messages[0])))
  }

  /** The pages put together, the later ones in front. */
  function Joined(pages: seq<Page>): seq<Row> {
    if pages == [] then [] else Joined(pages[1..]) + pages[0].messages
  }

  lemma {:induction false} ReverseAppend(a: seq<Row>, b: seq<Row>)
    ensures Reverse(a + b) == Reverse(b) + Reverse(a)
  {
    if a == [] {
      assert a + b == b;
    } else {
      assert (a + b)[1..] == a[1..] + b;
      ReverseAppend(a[1..], b);
    }
  }

  lemma {:induction false} FollowCovers(rows: seq<Row>, capped: nat, before: Option<Cursor>)
    requires UniqueIds(rows) && capped >= 1
    ensures Joined(Follow(rows, capped, before)) == Listing(Selected(rows, before))
    decreases |Selected(rows, before)|
  {
    hide OrderDesc, Before, Reverse, Fetch;
    var page, d := Fetch(rows, capped, before), OrderDesc(Selected(rows, before));
    FetchIsChunk(rows, capped, before);
    if page.hasMoreOlderMessages {
      NextSelection(rows, capped, before);
      var next := Some(CursorOf(page.messages[0]));
      FollowCovers(rows, capped, next);
      assert Follow(rows, capped, before) == [page] + Follow(rows, capped, next);
      assert Joined(Follow(rows, capped, before)) == Joined(Follow(rows, capped, next)) + page.messages;
      assert d == d[..capped] + d[capped..];
      ReverseAppend(d[..capped], d[capped..]);
    } else {
      assert [page][1..] == [];
      assert Joined([page]) == page.messages;
    }
  }

  /**
   * Keyset paging refines the sorted list: following the cursor from the latest page to the end
   * yields every row exactly once, in order, in finitely many pages.
   */
  lemma PagingIsListing(rows: seq<Row>, capped: nat)
    requires UniqueIds(rows) && capped >= 1
    ensures Joined(Follow(rows, capped, None)) == Listing(rows)
    ensures Ascending(Joined(Follow(rows, capped, None)))
    ensures multiset(Joined(Follow(rows, capped, None))) == multiset(rows)
  {
    FollowCovers(rows, capped, None);
    ListingIsSorted(rows);
  }

  /** The flag is false on the last page and on no other, and every earlier page is full. */
  lemma {:induction false} LastPageExactly(rows: seq<Row>, capped: nat, before: Option<Cursor>, i: nat)
    requires UniqueIds(rows) && capped >= 1 && i < |Follow(rows, capped, before)|
    ensures var pages := Follow(rows, capped, before);
            && (pages[i].hasMoreOlderMessages <==> i < |pages| - 1)
            && (i < |pages| - 1 ==> |pages[i].messages| == capped)
    decreases i
  {
    hide OrderDesc, Before, Reverse, Fetch;
    var page, d := Fetch(rows, capped, before), OrderDesc(Selected(rows, before));
    FetchIsChunk(rows, capped, before);
    ReverseLaws(Limit(d, capped));
    if page.hasMoreOlderMessages {
      NextSelection(rows, capped, before);
      var next := Some(CursorOf(page.messages[0]));
      assert Follow(rows, capped, before) == [page] + Follow(rows, capped, next);
      FollowNotEmpty(rows, capped, next);
      if i > 0 {
        LastPageExactly(rows, capped, next, i - 1);
      }
    } else {
      assert Follow(rows, capped, before) == [page];
    }
  }

  lemma FollowNotEmpty(rows: seq<Row>, capped: nat, before: Option<Cursor>)
    requires UniqueIds(rows) && capped >= 1
    ensures Follow(rows, capped, before) != []
  {
  }

  // ---------------------------------------------------------------------------
  // Rows that arrive between fetches
  // ---------------------------------------------------------------------------

  lemma {:induction false} BeforeAppend(rows: seq<Row>, newer: seq<Row>, c: Cursor)
    requires forall r <- newer :: !OlderThan(r, c)
    ensures Before(rows + newer, c) == Before(rows, c)
  {
    if rows == [] {
      assert rows + newer == newer;
      BeforeNone(newer, c);
    } else {
      assert (rows + newer)[1..] == rows[1..] + newer;
      BeforeAppend(rows[1..], newer, c);
    }
  }

  lemma {:induction false} BeforeNone(rows: seq<Row>, c: Cursor)
    requires forall r <- rows :: !OlderThan(r, c)
    ensures Before(rows, c) == []
  {
    if rows != [] {
      assert rows[0] in rows;
      BeforeNone(rows[1..], c);
    }
  }

  /** As `Follow`, but before each later fetch the next batch of `arrivals` joins the table. */
  function FollowLive(rows: seq<Row>, capped: nat, before: Option<Cursor>, arrivals: seq<seq<Row>>, fetches: nat)
    : seq<Page>
    decreases fetches
  {
    var page := Fetch(rows, capped, before);
    if fetches == 0 || !page.hasMoreOlderMessages || page.messages == [] then [page]
    else
      [page] + FollowLive(Joining(rows, arrivals), capped, Some(CursorOf(page.messages[0])), Later(arrivals), fetches - 1)
  }

  /**
   * Each batch is no older than the cursor in force when it arrives: the oldest row of the page
   * fetched last. Batches that come after the last fetch do not matter.
   */
  ghost predicate NoneOlder(rows: seq<Row>, capped: nat, before: Option<Cursor>, arrivals: seq<seq<Row>>)
    decreases |arrivals|
  {
    var page := Fetch(rows, capped, before);
    arrivals == [] || !page.hasMoreOlderMessages || page.messages == []
    || (var next := CursorOf(page.messages[0]);
        && (forall r <- arrivals[0] :: !OlderThan(r, next))
        && NoneOlder(rows, capped, Some(next), arrivals[1..]))
  }

  lemma NoneOlderUnfolds(rows: seq<Row>, capped: nat, before: Option<Cursor>, arrivals: seq<seq<Row>>)
    ensures var page := Fetch(rows, capped, before);
            if arrivals == [] || !page.hasMoreOlderMessages || page.messages == []
            then NoneOlder(rows, capped, before, arrivals)
            else
              var next := CursorOf(page.messages[0]);
              NoneOlder(rows, capped, before, arrivals)
              <==> (forall r <- arrivals[0] :: !OlderThan(r, next)) && NoneOlder(rows, capped, Some(next), arrivals[1..])
  {
    hide Fetch, OlderThan;
  }

  /** The table once a batch has joined it, and the batches still to come. */
  function Joining(now: seq<Row>, arrivals: seq<seq<Row>>): seq<Row> {
    if arrivals == [] then now else now + arrivals[0]
  }

  function Later(arrivals: seq<seq<Row>>): seq<seq<Row>> {
    if arrivals == [] then [] else arrivals[1..]
  }

  /** A page depends only on the selected rows. */
  lemma FetchDependsOnSelected(rows: seq<Row>, rows': seq<Row>, capped: nat, before: Option<Cursor>)
    requires Selected(rows, before) == Selected(rows', before)
    ensures Fetch(rows, capped, before) == Fetch(rows', capped, before)
  {
  }

  /** What two tables select alike before one cursor, they select alike before the next. */
  lemma SelectedAlike(rows: seq<Row>, now: seq<Row>, capped: nat, before: Option<Cursor>, batch: seq<Row>)
    requires UniqueIds(rows) && capped >= 1 && Selected(rows, before) == Selected(now, before)
    requires Fetch(rows, capped, before).hasMoreOlderMessages && Fetch(rows, capped, before).messages != []
    requires forall r <- batch :: !OlderThan(r, CursorOf(Fetch(rows, capped, before).messages[0]))
    ensures var next := CursorOf(Fetch(rows, capped, before).messages[0]); Before(rows, next) == Before(now + batch, next)
  {
    hide OrderDesc, Before, Reverse, Fetch;
    var next := CursorOf(Fetch(rows, capped, before).messages[0]);
    if before.Some? {
      OldestBeforeCursor(rows, capped, before.value);
      BeforeBefore(rows, before.value, next);
      BeforeBefore(now, before.value, next);
    }
    BeforeAppend(now, batch, next);
  }

  /** Arrivals that are not older than the cursor in force change no page from there on. */
  lemma {:induction false} ArrivalsUnseen(
    rows: seq<Row>, now: seq<Row>, capped: nat, before: Option<Cursor>, arrivals: seq<seq<Row>>, fetches: nat)
    requires UniqueIds(rows) && capped >= 1
    requires Selected(rows, before) == Selected(now, before) && NoneOlder(rows, capped, before, arrivals)
    requires fetches >= |Selected(rows, before)|
    ensures FollowLive(now, capped, before, arrivals, fetches) == Follow(rows, capped, before)
    decreases fetches
  {
    hide OrderDesc, Before, Reverse, Fetch;
    var page := Fetch(rows, capped, before);
    FetchDependsOnSelected(rows, now, capped, before);
    if page.hasMoreOlderMessages {
      NextSelection(rows, capped, before);
      var next := CursorOf(page.messages[0]);
      SelectedAlike(rows, now, capped, before, if arrivals == [] then [] else arrivals[0]);
      assert now + [] == now;
      ArrivalsUnseen(rows, Joining(now, arrivals), capped, Some(next), Later(arrivals), fetches - 1);
    }
  }

  lemma OldestBeforeCursor(rows: seq<Row>, capped: nat, c: Cursor)
    requires UniqueIds(rows) && capped >= 1 && Fetch(rows, capped, Some(c)).hasMoreOlderMessages
    requires Fetch(rows, capped, Some(c)).messages != []
    ensures OlderThan(Fetch(rows, capped, Some(c)).messages[0], c)
  {
    hide OrderDesc, Before, Reverse;
    var d := OrderDesc(Before(rows, c));
    FetchIsChunk(rows, capped, Some(c));
    ReverseLaws(Limit(d, capped));
    OrderLaws(Before(rows, c));
    BeforeLaws(rows, c);
    SameMembers(d, Before(rows, c), d[capped - 1]);
  }

  /**
   * Rows that arrive between fetches and are not older than the cursor then in force change no
   * later page: the reader still gets the list as it stood at the first fetch.
   */
  lemma ArrivalsChangeNoPage(rows: seq<Row>, capped: nat, arrivals: seq<seq<Row>>)
    requires UniqueIds(rows) && capped >= 1 && NoneOlder(rows, capped, None, arrivals)
    ensures FollowLive(rows, capped, None, arrivals, |rows|) == Follow(rows, capped, None)
    ensures Joined(FollowLive(rows, capped, None, arrivals, |rows|)) == Listing(rows)
  {
    ArrivalsUnseen(rows, rows, capped, None, arrivals, |rows|);
    FollowCovers(rows, capped, None);
  }

  /** Every row of a page was selected, and every selected row not on it is older than its oldest. */
  lemma PageSplits(rows: seq<Row>, capped: nat, before: Option<Cursor>, r: Row)
    requires UniqueIds(rows) && capped >= 1
    ensures var page := Fetch(rows, capped, before);
            && (r in page.messages ==> r in rows)
            && (r in Selected(rows, before) && r !in page.messages ==>
                  page.hasMoreOlderMessages && page.messages != [] && OlderThan(r, CursorOf(page.messages[0])))
  {
    hide OrderDesc, Before, Reverse, Fetch;
    var chosen := Selected(rows, before);
    var d := OrderDesc(chosen);
    var head := Limit(d, capped);
    FetchIsChunk(rows, capped, before);
    ReverseLaws(head);
    SameMembers(Reverse(head), head, r);
    OrderLaws(chosen);
    SameMembers(d, chosen, r);
    SelectedUnique(rows, before);
    OrderDescending(chosen);
    if before.Some? { BeforeMembers(rows, before.value); }
    if r in d && r !in head {
      assert forall k | 0 <= k < |head| :: d[k] == head[k] && head[k] in head;
      var i :| 0 <= i < |d| && d[i] == r;
      assert Older(d[i], d[capped - 1]);
    }
  }

  /** Both ways of following begin with their own page, and go on alike when it is the same full page. */
  lemma FirstPages(
    rows: seq<Row>, now: seq<Row>, capped: nat, before: Option<Cursor>, arrivals: seq<seq<Row>>, fetches: nat)
    requires UniqueIds(rows) && capped >= 1 && fetches >= |Selected(rows, before)|
    ensures var page, live := Fetch(rows, capped, before), Fetch(now, capped, before);
            var same := FollowLive(now, capped, before, arrivals, fetches) == Follow(rows, capped, before);
            && (same ==> page == live)
            && (page == live && page.hasMoreOlderMessages ==>
                  && page.messages != [] && fetches > 0
                  && var next := Some(CursorOf(page.messages[0]));
                     same <==> FollowLive(Joining(now, arrivals), capped, next, Later(arrivals), fetches - 1)
                               == Follow(rows, capped, next))
  {
    hide OrderDesc, Before, Reverse, Fetch;
    var page, live := Fetch(rows, capped, before), Fetch(now, capped, before);
    var pages, lives := Follow(rows, capped, before), FollowLive(now, capped, before, arrivals, fetches);
    assert pages[0] == page && lives[0] == live;
    if page == live && page.hasMoreOlderMessages {
      NextSelection(rows, capped, before);
      var next := Some(CursorOf(page.messages[0]));
      assert pages[1..] == Follow(rows, capped, next);
      assert lives[1..] == FollowLive(Joining(now, arrivals), capped, next, Later(arrivals), fetches - 1);
    }
  }

  /** A row that is in the table and older than the cursor, but not in the list, shows up in some page. */
  lemma {:induction false} LateRowSeen(
    rows: seq<Row>, now: seq<Row>, capped: nat, c: Cursor, arrivals: seq<seq<Row>>, fetches: nat, r: Row)
    requires UniqueIds(rows) && UniqueIds(now + Flatten(arrivals)) && capped >= 1
    requires r in now && OlderThan(r, c) && r !in rows && fetches >= |Before(rows, c)|
    ensures FollowLive(now, capped, Some(c), arrivals, fetches) != Follow(rows, capped, Some(c))
    decreases fetches
  {
    hide OrderDesc, Before, Reverse, Fetch;
    var page, live := Fetch(rows, capped, Some(c)), Fetch(now, capped, Some(c));
    PrefixUnique(now, Flatten(arrivals));
    BeforeMembers(now, c);
    PageSplits(now, capped, Some(c), r);
    PageSplits(rows, capped, Some(c), r);
    FirstPages(rows, now, capped, Some(c), arrivals, fetches);
    if page == live && page.hasMoreOlderMessages {
      NextSelection(rows, capped, Some(c));
      var next := CursorOf(page.messages[0]);
      FlattenFirst(now, arrivals);
      LateRowSeen(rows, Joining(now, arrivals), capped, next, Later(arrivals), fetches - 1, r);
    }
  }

  /**
   * Exactly so: the pages stay those of the list at the first fetch if and only if no batch holds
   * a row older than the cursor in force when it arrives.
   */
  lemma {:induction false} ArrivalsUnseenExactly(
    rows: seq<Row>, now: seq<Row>, capped: nat, before: Option<Cursor>, arrivals: seq<seq<Row>>, fetches: nat)
    requires UniqueIds(rows) && UniqueIds(now + Flatten(arrivals)) && capped >= 1
    requires Selected(rows, before) == Selected(now, before) && rows <= now && fetches >= |Selected(rows, before)|
    ensures FollowLive(now, capped, before, arrivals, fetches) == Follow(rows, capped, before)
            <==> NoneOlder(rows, capped, before, arrivals)
    decreases fetches
  {
    hide OrderDesc, Before, Reverse, Fetch, Follow, FollowLive, NoneOlder, UniqueIds, Flatten, OlderThan;
    var page := Fetch(rows, capped, before);
    FetchDependsOnSelected(rows, now, capped, before);
    NoneOlderUnfolds(rows, capped, before, arrivals);
    if page.hasMoreOlderMessages && arrivals != [] {
      NextSelection(rows, capped, before);
      var next, now', later := CursorOf(page.messages[0]), now + arrivals[0], arrivals[1..];
      FlattenFirst(now, arrivals);
      FirstPages(rows, now, capped, before, arrivals, fetches);
      if r :| r in arrivals[0] && OlderThan(r, next) {
        NewRow(rows, now, arrivals[0], Flatten(later), r);
        LateRowSeen(rows, now', capped, next, later, fetches - 1, r);
      } else {
        SelectedAlike(rows, now, capped, before, arrivals[0]);
        ArrivalsUnseenExactly(rows, now', capped, Some(next), later, fetches - 1);
      }
    } else if NoneOlder(rows, capped, before, arrivals) {
      ArrivalsUnseen(rows, now, capped, before, arrivals, fetches);
    }
  }

  /** A reader that starts from the latest page is undisturbed exactly by such arrivals. */
  lemma ArrivalsChangeNoPageExactly(rows: seq<Row>, capped: nat, arrivals: seq<seq<Row>>)
    requires UniqueIds(rows + Flatten(arrivals)) && capped >= 1
    ensures UniqueIds(rows)
    ensures FollowLive(rows, capped, None, arrivals, |rows|) == Follow(rows, capped, None)
            <==> NoneOlder(rows, capped, None, arrivals)
  {
    PrefixUnique(rows, Flatten(arrivals));
    ArrivalsUnseenExactly(rows, rows, capped, None, arrivals, |rows|);
  }

  /** All arriving rows, batch after batch. */
  function Flatten(arrivals: seq<seq<Row>>): seq<Row> {
    if arrivals == [] then [] else arrivals[0] + Flatten(arrivals[1..])
  }

  lemma FlattenFirst(now: seq<Row>, arrivals: seq<seq<Row>>)
    ensures now + Flatten(arrivals) == Joining(now, arrivals) + Flatten(Later(arrivals))
  {
  }

  lemma PrefixUnique(a: seq<Row>, b: seq<Row>)
    requires UniqueIds(a + b)
    ensures UniqueIds(a)
  {
    forall i, j | 0 <= i < j < |a| ensures a[i].id != a[j].id {
      assert (a + b)[i] == a[i] && (a + b)[j] == a[j];
    }
  }

  lemma NewRow(rows: seq<Row>, now: seq<Row>, batch: seq<Row>, rest: seq<Row>, r: Row)
    requires rows <= now && UniqueIds(now + batch + rest) && r in batch
    ensures r !in rows
  {
    var all := now + batch + rest;
    var j :| 0 <= j < |batch| && batch[j] == r;
    forall i | 0 <= i < |rows| ensures rows[i] != r {
      assert all[i] == rows[i] && all[|now| + j] == r;
      assert all[i].id != all[|now| + j].id;
    }
  }

  // ---------------------------------------------------------------------------
  // Cursors cut to whole milliseconds
  // ---------------------------------------------------------------------------

  /** The cursor as its text carries it: the database counts microseconds, the text milliseconds. */
  function Cut(c: Cursor): Cursor {
    Cursor(c.createdAt - c.createdAt % 1000, c.id)
  }

  /** What the cut cursor of the oldest row `o` passes over: older rows of the same millisecond. */
  predicate Skips(o: Row, r: Row) {
    && Older(r, o) && r.createdAt / 1000 == o.createdAt / 1000
    && (r.createdAt % 1000 > 0 || r.id >= o.id)
  }

  function Skipped(rows: seq<Row>, o: Row): seq<Row> {
    if rows == [] then []
    else (if Skips(o, rows[0]) then [rows[0]] else []) + Skipped(rows[1..], o)
  }

  lemma CutSelects(r: Row, o: Row)
    ensures OlderThan(r, Cut(CursorOf(o))) <==> Older(r, o) && !Skips(o, r)
  {
  }

  /** The cut cursor selects what the exact one would, less the skipped rows. */
  lemma {:induction false} CutSplits(rows: seq<Row>, o: Row)
    ensures multiset(Before(rows, Cut(CursorOf(o)))) + multiset(Skipped(rows, o)) == multiset(Before(rows, CursorOf(o)))
    ensures |Before(rows, Cut(CursorOf(o)))| + |Skipped(rows, o)| == |Before(rows, CursorOf(o))|
  {
    if rows != [] {
      CutSplits(rows[1..], o);
      CutSelects(rows[0], o);
    }
  }

  /** As `Follow`, with the cursors the readers really get. */
  function FollowCut(rows: seq<Row>, capped: nat, before: Option<Cursor>): seq<Page>
    requires UniqueIds(rows) && capped >= 1
    decreases |Selected(rows, before)|
  {
    var page := Fetch(rows, capped, before);
    if !page.hasMoreOlderMessages then [page]
    else
      NextSelection(rows, capped, before);
      CutSplits(rows, page.messages[0]);
      [page] + FollowCut(rows, capped, Some(Cut(CursorOf(page.messages[0]))))
  }

  /** The rows skipped at each page end on the way. */
  function Lost(rows: seq<Row>, capped: nat, before: Option<Cursor>): seq<Row>
    requires UniqueIds(rows) && capped >= 1
    decreases |Selected(rows, before)|
  {
    var page := Fetch(rows, capped, before);
    if !page.hasMoreOlderMessages then []
    else
      NextSelection(rows, capped, before);
      CutSplits(rows, page.messages[0]);
      Skipped(rows, page.messages[0]) + Lost(rows, capped, Some(Cut(CursorOf(page.messages[0]))))
  }

  /** A full page and the rows older than its oldest make up the selection; a last page is all of it. */
  lemma PageAndRest(rows: seq<Row>, capped: nat, before: Option<Cursor>)
    requires UniqueIds(rows) && capped >= 1
    ensures var page, all := Fetch(rows, capped, before), multiset(Selected(rows, before));
            if !page.hasMoreOlderMessages then multiset(page.messages) == all
            else
              page.messages != []
              && multiset(page.messages) + multiset(Before(rows, CursorOf(page.messages[0]))) == all
  {
    hide OrderDesc, Before, Reverse, Fetch;
    var page, d := Fetch(rows, capped, before), OrderDesc(Selected(rows, before));
    FetchIsChunk(rows, capped, before);
    OrderLaws(Selected(rows, before));
    ReverseLaws(Limit(d, capped));
    if page.hasMoreOlderMessages {
      NextSelection(rows, capped, before);
      OrderLaws(Before(rows, CursorOf(page.messages[0])));
      assert d == d[..capped] + d[capped..];
    }
  }

  lemma CutUnfolds(rows: seq<Row>, capped: nat, before: Option<Cursor>)
    requires UniqueIds(rows) && capped >= 1
    ensures var page, joined := Fetch(rows, capped, before), Joined(FollowCut(rows, capped, before));
            if !page.hasMoreOlderMessages then joined == page.messages && Lost(rows, capped, before) == []
            else
              && page.messages != []
              && var next := Some(Cut(CursorOf(page.messages[0])));
                 && |Selected(rows, next)| < |Selected(rows, before)|
                 && joined == Joined(FollowCut(rows, capped, next)) + page.messages
                 && Lost(rows, capped, before) == Skipped(rows, page.messages[0]) + Lost(rows, capped, next)
  {
    hide OrderDesc, Before, Reverse, Fetch, Skipped, Cut;
    var page := Fetch(rows, capped, before);
    if page.hasMoreOlderMessages {
      NextSelection(rows, capped, before);
      CutSplits(rows, page.messages[0]);
      var next := Some(Cut(CursorOf(page.messages[0])));
      assert FollowCut(rows, capped, before)[1..] == FollowCut(rows, capped, next);
    } else {
      assert FollowCut(rows, capped, before) == [page] && [page][1..] == [];
    }
  }

  /** Every selected row is either on exactly one page or skipped at exactly one page end. */
  lemma {:induction false} CutPagesPartition(rows: seq<Row>, capped: nat, before: Option<Cursor>)
    requires UniqueIds(rows) && capped >= 1
    ensures multiset(Joined(FollowCut(rows, capped, before))) + multiset(Lost(rows, capped, before))
            == multiset(Selected(rows, before))
    decreases |Selected(rows, before)|
  {
    hide OrderDesc, Before, Reverse, Fetch, Skipped, Cut, FollowCut, Lost, Joined, UniqueIds;
    var page := Fetch(rows, capped, before);
    CutUnfolds(rows, capped, before);
    PageAndRest(rows, capped, before);
    if page.hasMoreOlderMessages {
      CutSplits(rows, page.messages[0]);
      CutPagesPartition(rows, capped, Some(Cut(CursorOf(page.messages[0]))));
    }
  }

  lemma {:induction false} CutPagesAscend(rows: seq<Row>, capped: nat, before: Option<Cursor>)
    requires UniqueIds(rows) && capped >= 1
    ensures Ascending(Joined(FollowCut(rows, capped, before)))
    decreases |Selected(rows, before)|
  {
    hide OrderDesc, Before, Reverse, Fetch, Skipped, Cut, FollowCut, Lost, Joined, UniqueIds;
    var page := Fetch(rows, capped, before);
    CutUnfolds(rows, capped, before);
    PageAscends(rows, capped, before);
    if page.hasMoreOlderMessages {
      var o := page.messages[0];
      var next := Cut(CursorOf(o));
      CutPagesAscend(rows, capped, Some(next));
      CutPagesPartition(rows, capped, Some(next));
      var rest := Joined(FollowCut(rows, capped, Some(next)));
      forall r <- rest ensures Older(r, o) {
        assert r in multiset(rest) && r in multiset(Before(rows, next));
        BeforeMembers(rows, next);
        CutSelects(r, o);
      }
      JoinAscends(rest, page.messages);
    }
  }

  lemma PageAscends(rows: seq<Row>, capped: nat, before: Option<Cursor>)
    requires UniqueIds(rows)
    ensures Ascending(Fetch(rows, capped, before).messages)
  {
    hide OrderDesc, Before, Reverse;
    var d := OrderDesc(Selected(rows, before));
    FetchIsChunk(rows, capped, before);
    SelectedUnique(rows, before);
    OrderDescending(Selected(rows, before));
    ReverseLaws(Limit(d, capped));
  }

  lemma JoinAscends(a: seq<Row>, b: seq<Row>)
    requires Ascending(a) && Ascending(b) && b != [] && forall r <- a :: Older(r, b[0])
    ensures Ascending(a + b)
  {
    forall i, j | 0 <= i < j < |a + b| ensures Older((a + b)[i], (a + b)[j]) {
      if i < |a| <= j {
        assert a[i] in a;
      }
    }
  }

  /** Along a list, newest first: no page of `capped` rows ends at a row whose cut cursor skips the next one. */
  predicate WholePages(d: seq<Row>, capped: nat)
    requires capped >= 1
    decreases |d|
  {
    |d| <= capped || (!Skips(d[capped - 1], d[capped]) && WholePages(d[capped..], capped))
  }

  /** If a cut cursor skips any later row of a descending list, it skips the next one. */
  lemma SkipsNext(d: seq<Row>, i: nat, j: nat)
    requires Descending(d) && i + 1 <= j < |d| && Skips(d[i], d[j])
    ensures Skips(d[i], d[i + 1])
  {
    assert Older(d[i + 1], d[i]);
    assert j == i + 1 || Older(d[j], d[i + 1]);
  }

  lemma {:induction false} SkippedNone(rows: seq<Row>, o: Row)
    ensures Skipped(rows, o) == [] <==> forall r <- rows :: !Skips(o, r)
  {
    if rows != [] {
      SkippedNone(rows[1..], o);
      assert rows == [rows[0]] + rows[1..];
    }
  }

  /** The rows older than the oldest of a full page are, in order, those that follow it. */
  lemma RestFollows(rows: seq<Row>, capped: nat, before: Option<Cursor>, r: Row)
    requires UniqueIds(rows) && capped >= 1 && Fetch(rows, capped, before).hasMoreOlderMessages
    ensures var d := OrderDesc(Selected(rows, before));
            && |d| > capped && Descending(d)
            && Fetch(rows, capped, before).messages != [] && Fetch(rows, capped, before).messages[0] == d[capped - 1]
            && (r in d[capped..] <==> r in rows && Older(r, d[capped - 1]))
  {
    hide OrderDesc, Before, Reverse, Descending, UniqueIds;
    var d := OrderDesc(Selected(rows, before));
    FetchIsChunk(rows, capped, before);
    ReverseLaws(d[..capped]);
    var o := d[capped - 1];
    NextSelection(rows, capped, before);
    SelectedUnique(rows, before);
    OrderDescending(Selected(rows, before));
    OrderLaws(Before(rows, CursorOf(o)));
    BeforeMembers(rows, CursorOf(o));
    SameMembers(d[capped..], Before(rows, CursorOf(o)), r);
  }

  /** Nothing is skipped at a page end exactly when the next row of the ordered list is not. */
  lemma PageEndSkips(rows: seq<Row>, capped: nat, before: Option<Cursor>)
    requires UniqueIds(rows) && capped >= 1 && Fetch(rows, capped, before).hasMoreOlderMessages
    ensures var d := OrderDesc(Selected(rows, before));
            && |d| > capped && Fetch(rows, capped, before).messages != []
            && Fetch(rows, capped, before).messages[0] == d[capped - 1]
            && (Skipped(rows, d[capped - 1]) == [] <==> !Skips(d[capped - 1], d[capped]))
  {
    hide OrderDesc, Fetch, UniqueIds, Descending, Skipped;
    var d := OrderDesc(Selected(rows, before));
    RestFollows(rows, capped, before, Row(0, "", "", None, 0, ""));
    var o, next := d[capped - 1], d[capped];
    assert next in d[capped..] by { assert d[capped..][0] == next; }
    RestFollows(rows, capped, before, next);
    SkippedNone(rows, o);
    forall r <- rows | Skips(o, r) ensures Skips(o, next) {
      RestFollows(rows, capped, before, r);
      var k :| 0 <= k < |d[capped..]| && d[capped..][k] == r;
      assert d[capped + k] == r;
      SkipsNext(d, capped - 1, capped + k);
    }
  }

  /** Where nothing is skipped, the cut cursor selects as the exact one does. */
  lemma {:induction false} CutSelectsAll(rows: seq<Row>, o: Row)
    requires Skipped(rows, o) == []
    ensures Before(rows, Cut(CursorOf(o))) == Before(rows, CursorOf(o))
  {
    if rows != [] {
      CutSelectsAll(rows[1..], o);
      CutSelects(rows[0], o);
    }
  }

  lemma {:induction false} LostNothingExactly(rows: seq<Row>, capped: nat, before: Option<Cursor>)
    requires UniqueIds(rows) && capped >= 1
    ensures Lost(rows, capped, before) == [] <==> WholePages(OrderDesc(Selected(rows, before)), capped)
    decreases |Selected(rows, before)|
  {
    hide OrderDesc, Before, Reverse, Fetch, Skipped, Cut, FollowCut, Lost, UniqueIds, Skips;
    var page := Fetch(rows, capped, before);
    CutUnfolds(rows, capped, before);
    FetchIsChunk(rows, capped, before);
    if page.hasMoreOlderMessages {
      var o := page.messages[0];
      PageEndSkips(rows, capped, before);
      NextSelection(rows, capped, before);
      if Skipped(rows, o) == [] {
        CutSelectsAll(rows, o);
        LostNothingExactly(rows, capped, Some(Cut(CursorOf(o))));
      }
    }
  }

  /**
   * Paging with cut cursors gives the plain sorted list exactly when, counting that list off in
   * pages from the newest row, no page ends at a row that shares its millisecond with the next one,
   * unless that one stands at the start of the millisecond with a smaller id.
   */
  lemma CutPagingExactly(rows: seq<Row>, capped: nat)
    requires UniqueIds(rows) && capped >= 1
    ensures Joined(FollowCut(rows, capped, None)) == Listing(rows) <==> WholePages(OrderDesc(rows), capped)
  {
    hide FollowCut, Lost, OrderDesc, Reverse, WholePages;
    LostNothingExactly(rows, capped, None);
    CutShowsAllExactly(rows, capped);
  }

  lemma CutShowsAllExactly(rows: seq<Row>, capped: nat)
    requires UniqueIds(rows) && capped >= 1
    ensures Joined(FollowCut(rows, capped, None)) == Listing(rows) <==> Lost(rows, capped, None) == []
  {
    hide FollowCut, Lost, OrderDesc, Reverse;
    var shown, lost := Joined(FollowCut(rows, capped, None)), Lost(rows, capped, None);
    CutPagesPartition(rows, capped, None);
    CutPagesAscend(rows, capped, None);
    ListingIsSorted(rows);
    if lost == [] {
      assert multiset(shown) == multiset(Listing(rows));
      AscendingUnique(shown, Listing(rows));
    } else {
      assert |multiset(shown)| + |multiset(lost)| == |multiset(rows)|;
      assert |multiset(Listing(rows))| == |multiset(rows)|;
    }
  }

  /** For example, of two rows a quarter of a millisecond apart, pages of one show only the newer. */
  lemma SplitMillisecondLoses()
    ensures exists rows: seq<Row> :: UniqueIds(rows) && Joined(FollowCut(rows, 1, None)) != Listing(rows)
  {
    hide FollowCut, Joined;
    var newer := Row(1, "w", "c", None, 1_750, "second");
    var older := Row(2, "w", "c", None, 1_500, "first");
    var rows := [newer, older];
    assert rows[1..] == [older] && [older][1..] == [];
    assert OrderDesc(rows) == rows by {
      assert OrderDesc([older]) == [older];
    }
    CutPagingExactly(rows, 1);
  }

  lemma AscendingUnique(a: seq<Row>, b: seq<Row>)
    requires Ascending(a) && Ascending(b) && multiset(a) == multiset(b)
    ensures a == b
  {
    ReverseLaws(a);
    ReverseLaws(b);
    forall r ensures r in Reverse(a) <==> r in Reverse(b) {
      SameMembers(Reverse(a), Reverse(b), r);
    }
    DescendingUnique(Reverse(a), Reverse(b));
    assert |a| == |b|;
    forall i | 0 <= i < |a| ensures a[i] == b[i] {
      assert Reverse(a)[|a| - 1 - i] == a[i] && Reverse(b)[|b| - 1 - i] == b[i];
    }
  }

  /** Rows stored at whole milliseconds are never skipped, and their pages are those of exact cursors. */
  lemma {:induction false} WholeMillisecondsExact(rows: seq<Row>, capped: nat, before: Option<Cursor>)
    requires UniqueIds(rows) && capped >= 1 && forall r <- rows :: r.createdAt % 1000 == 0
    ensures FollowCut(rows, capped, before) == Follow(rows, capped, before)
    decreases |Selected(rows, before)|
  {
    hide OrderDesc, Before, Reverse, Fetch;
    var page := Fetch(rows, capped, before);
    if page.hasMoreOlderMessages {
      NextSelection(rows, capped, before);
      var o := page.messages[0];
      PageSplits(rows, capped, before, o);
      assert o in rows && Cut(CursorOf(o)) == CursorOf(o);
      WholeMillisecondsExact(rows, capped, Some(CursorOf(o)));
    }
  }

  // ---------------------------------------------------------------------------
  // The two readers
  // ---------------------------------------------------------------------------

  lemma {:induction false} VisibleLaws(table: seq<Row>, workspaceId: string, conversationId: string)
    ensures forall r :: r in Visible(table, workspaceId, conversationId) <==>
                        && r in table && r.workspaceId == workspaceId && r.parentId == conversationId
                        && (r.status.None? || r.status.value == "dry_run")
    ensures UniqueIds(table) ==> UniqueIds(Visible(table, workspaceId, conversationId))
  {
    if table != [] {
      VisibleLaws(table[1..], workspaceId, conversationId);
      assert table == [table[0]] + table[1..];
      var tail := Visible(table[1..], workspaceId, conversationId);
      assert forall i | 0 <= i < |tail| :: tail[i] in tail;
    }
  }

  lemma {:induction false} OfSessionLaws(table: seq<Row>, workspaceId: string, sessionId: string)
    ensures forall r :: r in OfSession(table, workspaceId, sessionId) <==>
                        r in table && r.workspaceId == workspaceId && r.parentId == sessionId
    ensures UniqueIds(table) ==> UniqueIds(OfSession(table, workspaceId, sessionId))
  {
    if table != [] {
      OfSessionLaws(table[1..], workspaceId, sessionId);
      assert table == [table[0]] + table[1..];
      var tail := OfSession(table[1..], workspaceId, sessionId);
      assert forall i | 0 <= i < |tail| :: tail[i] in tail;
    }
  }

  /** The cursor that page `i` is asked for with: the oldest row of the page before it. */
  function NextCursor(pages: seq<Page>, i: nat): Option<Cursor>
    requires i < |pages|
  {
    if i > 0 && pages[i - 1].messages != [] then Some(CursorOf(pages[i - 1].messages[0])) else None
  }

  /** Each page after the first is fetched with the cursor of the oldest row of the page before. */
  lemma {:induction false} FollowSteps(rows: seq<Row>, capped: nat, before: Option<Cursor>, i: nat)
    requires UniqueIds(rows) && capped >= 1 && i < |Follow(rows, capped, before)|
    ensures var pages := Follow(rows, capped, before);
            if i == 0 then pages[0] == Fetch(rows, capped, before)
            else NextCursor(pages, i).Some? && pages[i] == Fetch(rows, capped, NextCursor(pages, i))
    decreases i
  {
    hide Fetch, CursorOf;
    var page := Fetch(rows, capped, before);
    if i > 0 {
      assert page.hasMoreOlderMessages;
      NextSelection(rows, capped, before);
      var next := Some(CursorOf(page.messages[0]));
      assert Follow(rows, capped, before) == [page] + Follow(rows, capped, next);
      FollowSteps(rows, capped, next, i - 1);
    }
  }

  /** Paging a conversation: the readers, chained by their cursors, list exactly its visible messages. */
  lemma ConversationPages(table: seq<Row>, workspaceId: string, conversationId: string, limit: Requested)
    returns (pages: seq<Page>)
    requires UniqueIds(table)
    ensures |pages| >= 1 && pages[0] == ListConversationMessagesLatestPage(table, workspaceId, conversationId, limit)
    ensures forall i | 0 < i < |pages| ::
              && NextCursor(pages, i).Some?
              && pages[i] == ListConversationMessagesOlderPage(
                   table, workspaceId, conversationId, limit, NextCursor(pages, i).value)
    ensures forall i | 0 <= i < |pages| :: pages[i].hasMoreOlderMessages <==> i < |pages| - 1
    ensures forall i | 0 <= i < |pages| - 1 :: |pages[i].messages| == Clamp(limit, 50, 100)
    ensures Ascending(Joined(pages)) && multiset(Joined(pages)) == multiset(Visible(table, workspaceId, conversationId))
  {
    hide Follow, Fetch, Clamp, Joined, CursorOf, Visible;
    var rows := Visible(table, workspaceId, conversationId);
    var capped := Clamp(limit, DEFAULT_MESSAGES_PAGE_SIZE, MAX_MESSAGES_PAGE_SIZE);
    VisibleLaws(table, workspaceId, conversationId);
    ClampInRange(limit, 1, DEFAULT_MESSAGES_PAGE_SIZE, MAX_MESSAGES_PAGE_SIZE);
    pages := Follow(rows, capped, None);
    FollowNotEmpty(rows, capped, None);
    PagingIsListing(rows, capped);
    FollowSteps(rows, capped, None, 0);
    forall i | 0 <= i < |pages|
      ensures pages[i].hasMoreOlderMessages <==> i < |pages| - 1
      ensures i < |pages| - 1 ==> |pages[i].messages| == capped
    {
      LastPageExactly(rows, capped, None, i);
    }
    forall i | 0 < i < |pages|
      ensures NextCursor(pages, i).Some? && pages[i] == Fetch(rows, capped, NextCursor(pages, i))
    {
      FollowSteps(rows, capped, None, i);
    }
  }

  /** Paging an agent transcript: one reader, with and without a cursor, lists exactly the session's messages. */
  lemma AgentPages(table: seq<Row>, workspaceId: string, sessionId: string, limit: Option<Requested>)
    returns (pages: seq<Page>)
    requires UniqueIds(table)
    ensures |pages| >= 1 && pages[0] == ListAgentMessagesPage(table, workspaceId, sessionId, limit, None)
    ensures forall i | 0 < i < |pages| ::
              && NextCursor(pages, i).Some?
              && pages[i] == ListAgentMessagesPage(table, workspaceId, sessionId, limit, NextCursor(pages, i))
    ensures forall i | 0 <= i < |pages| :: pages[i].hasMoreOlderMessages <==> i < |pages| - 1
    ensures forall i | 0 <= i < |pages| - 1 ::
              |pages[i].messages| == Clamp(if limit.Some? then limit.value else NotFinite, 100, 200)
    ensures Ascending(Joined(pages)) && multiset(Joined(pages)) == multiset(OfSession(table, workspaceId, sessionId))
  {
    hide Follow, Fetch, Clamp, Joined, CursorOf, OfSession;
    var rows := OfSession(table, workspaceId, sessionId);
    var requested := if limit.Some? then limit.value else NotFinite;
    var capped := Clamp(requested, DEFAULT_AGENT_MESSAGES_PAGE_SIZE, MAX_AGENT_MESSAGES_PAGE_SIZE);
    OfSessionLaws(table, workspaceId, sessionId);
    ClampInRange(requested, 1, DEFAULT_AGENT_MESSAGES_PAGE_SIZE, MAX_AGENT_MESSAGES_PAGE_SIZE);
    pages := Follow(rows, capped, None);
    FollowNotEmpty(rows, capped, None);
    PagingIsListing(rows, capped);
    FollowSteps(rows, capped, None, 0);
    forall i | 0 <= i < |pages|
      ensures pages[i].hasMoreOlderMessages <==> i < |pages| - 1
      ensures i < |pages| - 1 ==> |pages[i].messages| == capped
    {
      LastPageExactly(rows, capped, None, i);
    }
    forall i | 0 < i < |pages|
      ensures NextCursor(pages, i).Some? && pages[i] == Fetch(rows, capped, NextCursor(pages, i))
    {
      FollowSteps(rows, capped, None, i);
    }
  }

  lemma FollowCutNotEmpty(rows: seq<Row>, capped: nat, before: Option<Cursor>)
    requires UniqueIds(rows) && capped >= 1
    ensures var pages, page := FollowCut(rows, capped, before), Fetch(rows, capped, before);
            && pages != [] && pages[0] == page
            && (page.hasMoreOlderMessages ==>
                  page.messages != [] && pages[1..] == FollowCut(rows, capped, Some(Cut(CursorOf(page.messages[0])))))
            && (!page.hasMoreOlderMessages ==> |pages| == 1)
  {
    hide Fetch, Cut;
    if Fetch(rows, capped, before).hasMoreOlderMessages {
      NextSelection(rows, capped, before);
    }
  }

  /** Each later page is fetched with the cut cursor of the page before, and the flag tells the last one. */
  lemma {:induction false} FollowCutSteps(rows: seq<Row>, capped: nat, before: Option<Cursor>, i: nat)
    requires UniqueIds(rows) && capped >= 1 && i < |FollowCut(rows, capped, before)|
    ensures var pages := FollowCut(rows, capped, before);
            && (pages[i].hasMoreOlderMessages <==> i < |pages| - 1)
            && (i > 0 ==> CutCursor(pages, i).Some? && pages[i] == Fetch(rows, capped, CutCursor(pages, i)))
    decreases i
  {
    hide Fetch, Cut, CursorOf, FollowCut;
    var page := Fetch(rows, capped, before);
    FollowCutNotEmpty(rows, capped, before);
    if page.hasMoreOlderMessages {
      var next := Some(Cut(CursorOf(page.messages[0])));
      FollowCutNotEmpty(rows, capped, next);
      if i > 0 {
        FollowCutSteps(rows, capped, next, i - 1);
      }
    }
  }

  /** The cursor a reader really gets for page `i`: that of the oldest row before it, cut. */
  function CutCursor(pages: seq<Page>, i: nat): Option<Cursor>
    requires i < |pages|
  {
    var exact := NextCursor(pages, i);
    if exact.Some? then Some(Cut(exact.value)) else None
  }

  /**
   * Paging a conversation with the cursors the readers really get: the pages list exactly its
   * visible messages, in order, if and only if that list falls into whole pages.
   */
  lemma ConversationCutPages(table: seq<Row>, workspaceId: string, conversationId: string, limit: Requested)
    returns (pages: seq<Page>)
    requires UniqueIds(table)
    ensures |pages| >= 1 && pages[0] == ListConversationMessagesLatestPage(table, workspaceId, conversationId, limit)
    ensures forall i | 0 < i < |pages| ::
              && CutCursor(pages, i).Some?
              && pages[i] == ListConversationMessagesOlderPage(
                   table, workspaceId, conversationId, limit, CutCursor(pages, i).value)
    ensures forall i | 0 <= i < |pages| :: pages[i].hasMoreOlderMessages <==> i < |pages| - 1
    ensures var capped := Clamp(limit, DEFAULT_MESSAGES_PAGE_SIZE, MAX_MESSAGES_PAGE_SIZE);
            var visible := Visible(table, workspaceId, conversationId);
            && capped >= 1 && UniqueIds(visible)
            && (Joined(pages) == Listing(visible) <==> WholePages(OrderDesc(visible), capped))
  {
    hide FollowCut, Fetch, Clamp, Joined, CursorOf, Cut, Visible, WholePages, Listing;
    var rows := Visible(table, workspaceId, conversationId);
    var capped := Clamp(limit, DEFAULT_MESSAGES_PAGE_SIZE, MAX_MESSAGES_PAGE_SIZE);
    VisibleLaws(table, workspaceId, conversationId);
    ClampInRange(limit, 1, DEFAULT_MESSAGES_PAGE_SIZE, MAX_MESSAGES_PAGE_SIZE);
    pages := FollowCut(rows, capped, None);
    FollowCutNotEmpty(rows, capped, None);
    CutPagingExactly(rows, capped);
    forall i | 0 <= i < |pages|
      ensures pages[i].hasMoreOlderMessages <==> i < |pages| - 1
      ensures i > 0 ==> CutCursor(pages, i).Some? && pages[i] == Fetch(rows, capped, CutCursor(pages, i))
    {
      FollowCutSteps(rows, capped, None, i);
    }
  }

  /** Paging an agent transcript with the cursors the reader really gets. */
  lemma AgentCutPages(table: seq<Row>, workspaceId: string, sessionId: string, limit: Option<Requested>)
    returns (pages: seq<Page>)
    requires UniqueIds(table)
    ensures |pages| >= 1 && pages[0] == ListAgentMessagesPage(table, workspaceId, sessionId, limit, None)
    ensures forall i | 0 < i < |pages| ::
              && CutCursor(pages, i).Some?
              && pages[i] == ListAgentMessagesPage(table, workspaceId, sessionId, limit, CutCursor(pages, i))
    ensures forall i | 0 <= i < |pages| :: pages[i].hasMoreOlderMessages <==> i < |pages| - 1
    ensures var requested := if limit.Some? then limit.value else NotFinite;
            var capped := Clamp(requested, DEFAULT_AGENT_MESSAGES_PAGE_SIZE, MAX_AGENT_MESSAGES_PAGE_SIZE);
            var rows := OfSession(table, workspaceId, sessionId);
            && capped >= 1 && UniqueIds(rows)
            && (Joined(pages) == Listing(rows) <==> WholePages(OrderDesc(rows), capped))
  {
    hide FollowCut, Fetch, Clamp, Joined, CursorOf, Cut, OfSession, WholePages, Listing;
    var rows := OfSession(table, workspaceId, sessionId);
    var requested := if limit.Some? then limit.value else NotFinite;
    var capped := Clamp(requested, DEFAULT_AGENT_MESSAGES_PAGE_SIZE, MAX_AGENT_MESSAGES_PAGE_SIZE);
    OfSessionLaws(table, workspaceId, sessionId);
    ClampInRange(requested, 1, DEFAULT_AGENT_MESSAGES_PAGE_SIZE, MAX_AGENT_MESSAGES_PAGE_SIZE);
    pages := FollowCut(rows, capped, None);
    FollowCutNotEmpty(rows, capped, None);
    CutPagingExactly(rows, capped);
    forall i | 0 <= i < |pages|
      ensures pages[i].hasMoreOlderMessages <==> i < |pages| - 1
      ensures i > 0 ==> CutCursor(pages, i).Some? && pages[i] == Fetch(rows, capped, CutCursor(pages, i))
    {
      FollowCutSteps(rows, capped, None, i);
    }
  }
}
