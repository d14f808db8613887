/**
 * The knowledge-source catalog (backend/src/agent/skills-catalog.ts) and its resolution into
 * reply sources (backend/src/agent/reply-sources.ts).
 */
module KnowledgeSources {
  import opened Options
  import opened JsString
  import Sequences

  datatype Kind = Context | Template | Skill | Handoff

  /** `title` is the source's `label` field; `groupLabel` is absent for skills and for group-level items. */
  datatype Item = Item(kind: Kind, title: string, groupLabel: Option<string>, id: string, groupId: Option<string>)

  datatype Source = Source(
    kind: Kind, title: string, groupLabel: Option<string>, id: Option<string>, groupId: Option<string>)

  datatype Catalog = Catalog(items: seq<Item>, handoffByEntryId: map<string, Item>)

  function KindName(kind: Kind): string {
    match kind
    case Context => "context"
    case Template => "template"
    case Skill => "skill"
    case Handoff => "handoff"
  }

  function LowerChar(c: char): char {
    if 'A' <= c <= 'Z' then c + 32 as char else c
  }

  /** `toLowerCase` on ASCII text. */
  function AsciiLower(s: string): string {
    seq(|s|, i requires 0 <= i < |s| => LowerChar(s[i]))
  }

  predicate Ascii(s: string) {
    forall i | 0 <= i < |s| :: s[i] <= '\U{007F}'
  }

  /**
   * What is used of `toLowerCase`: how it treats ASCII text, that it leaves something of every text,
   * and that it makes no colon. Of other letters nothing is assumed.
   */
  ghost predicate LowersText(lower: string -> string) {
    && (forall s | Ascii(s) :: lower(s) == AsciiLower(s))
    && (forall s :: lower(s) == "" ==> s == "")
    && (forall s | ':' !in s :: ':' !in lower(s))
  }

  type Lowering = lower: string -> string | LowersText(lower) witness AsciiLower

  const ToLower: Lowering

  function Normalize(s: string): string {
    ToLower(Trim(s))
  }

  function OrBlank(s: Option<string>): string {
    if s.Some? then s.value else ""
  }

  function Key(kind: Kind, group: Option<string>, title: string): string {
    KindName(kind) + ":" + Normalize(OrBlank(group)) + ":" + Normalize(title)
  }

  function ItemKey(item: Item): string {
    Key(item.kind, item.groupLabel, item.title)
  }

  // ---------------------------------------------------------------------------
  // De-duplication of the catalog
  // ---------------------------------------------------------------------------

  function UniqueFrom(items: seq<Item>, seen: set<string>): seq<Item> {
    if items == [] then []
    else if Trim(items[0].title) == "" || ItemKey(items[0]) in seen then UniqueFrom(items[1..], seen)
    else [items[0].(title := Trim(items[0].title))] + UniqueFrom(items[1..], seen + {ItemKey(items[0])})
  }

  method UniqueCatalogItems(items: seq<Item>) returns (out: seq<Item>)
    ensures out == UniqueFrom(items, {})
  {
    hide Trim, ItemKey;
    var seen: set<string> := {};
    out := [];
    for n := 0 to |items|
      invariant out + UniqueFrom(items[n..], seen) == UniqueFrom(items, {})
    {
      assert items[n..][1..] == items[n + 1..];
      var title := Trim(items[n].title);
      if title == "" { continue; }
      var key := ItemKey(items[n]);
      if key in seen { continue; }
      seen := seen + {key};
      out := out + [items[n].(title := title)];
    }
  }

  // ---------------------------------------------------------------------------
  // Lookup
  // ---------------------------------------------------------------------------

  function Matching(items: seq<Item>, kind: Kind, needle: string): seq<Item> {
    if items == [] then []
    else if items[0].kind == kind && Normalize(items[0].title) == needle
    then [items[0]] + Matching(items[1..], kind, needle)
    else Matching(items[1..], kind, needle)
  }

  function FirstInGroup(items: seq<Item>, groupNeedle: string): Option<Item> {
    if items == [] then None
    else if Normalize(OrBlank(items[0].groupLabel)) == groupNeedle then Some(items[0])
    else FirstInGroup(items[1..], groupNeedle)
  }

  function FirstGrouped(items: seq<Item>): Option<Item> {
    if items == [] then None
    else if items[0].groupLabel.Some? then Some(items[0])
    else FirstGrouped(items[1..])
  }

  function FirstUngrouped(items: seq<Item>): Option<Item> {
    if items == [] then None
    else if items[0].groupLabel.None? then Some(items[0])
    else FirstUngrouped(items[1..])
  }

  function FindItem(items: seq<Item>, kind: Kind, title: string, group: string): Option<Item> {
    var needle := Normalize(title);
    if needle == "" then None
    else
      var matches := Matching(items, kind, needle);
      if matches == [] then None
      else
        var inGroup := FirstInGroup(matches, Normalize(group));
        if Normalize(group) != "" && inGroup.Some? then inGroup
        else if FirstGrouped(matches).Some? then FirstGrouped(matches)
        else Some(matches[0])
  }

  function FindGroupItem(items: seq<Item>, kind: Kind, group: string): Option<Item> {
    var needle := Normalize(group);
    if needle == "" then None else FirstUngrouped(Matching(items, kind, needle))
  }

  // ---------------------------------------------------------------------------
  // De-duplication is transparent exactly when keys do not collide
  // ---------------------------------------------------------------------------

  /** The four questions a lookup asks of a list: the first item that fits. */
  datatype Query = Query(kind: Kind, needle: string, test: Test)

  datatype Test = InGroup(groupNeedle: string) | Grouped | Ungrouped | Any

  predicate Fits(item: Item, q: Query) {
    && item.kind == q.kind && Normalize(item.title) == q.needle
    && match q.test
       case InGroup(g) => Normalize(OrBlank(item.groupLabel)) == g
       case Grouped => item.groupLabel.Some?
       case Ungrouped => item.groupLabel.None?
       case Any => true
  }

  function First(items: seq<Item>, q: Query): Option<Item> {
    if items == [] then None
    else if Fits(items[0], q) then Some(items[0])
    else First(items[1..], q)
  }

  lemma {:induction false} MatchingIsFirst(items: seq<Item>, kind: Kind, needle: string, g: string)
    ensures FirstInGroup(Matching(items, kind, needle), g) == First(items, Query(kind, needle, InGroup(g)))
    ensures FirstGrouped(Matching(items, kind, needle)) == First(items, Query(kind, needle, Grouped))
    ensures FirstUngrouped(Matching(items, kind, needle)) == First(items, Query(kind, needle, Ungrouped))
    ensures First(items, Query(kind, needle, Any))
            == if Matching(items, kind, needle) == [] then None else Some(Matching(items, kind, needle)[0])
  {
    hide Normalize;
    if items != [] {
      MatchingIsFirst(items[1..], kind, needle, g);
    }
  }

  /** Same kind, same title, and the same group or both none, up to normalization. */
  ghost predicate SameName(a: Item, b: Item) {
    && a.kind == b.kind && Normalize(a.title) == Normalize(b.title)
    && (a.groupLabel.Some? <==> b.groupLabel.Some?)
    && Normalize(OrBlank(a.groupLabel)) == Normalize(OrBlank(b.groupLabel))
  }

  /** Items that can be named share a key only if they share a name. */
  ghost predicate NoCollision(items: seq<Item>) {
    forall a, b | a in items && b in items && Trim(a.title) != "" && Trim(b.title) != "" && ItemKey(a) == ItemKey(b) ::
      SameName(a, b)
  }

  ghost predicate GroupsNamed(items: seq<Item>) {
    forall item <- items | item.groupLabel.Some? :: Trim(item.groupLabel.value) != ""
  }

  function Trimmed(item: Option<Item>): Option<Item> {
    if item.Some? then Some(item.value.(title := Trim(item.value.title))) else None
  }

  /** Every lookup finds in the de-duplicated list what it finds in the raw one, its title trimmed. */
  ghost predicate Transparent(items: seq<Item>) {
    && (forall kind, title, group ::
          FindItem(UniqueFrom(items, {}), kind, title, group) == Trimmed(FindItem(items, kind, title, group)))
    && (forall kind, group ::
          FindGroupItem(UniqueFrom(items, {}), kind, group) == Trimmed(FindGroupItem(items, kind, group)))
  }

  lemma NormalizeTrim(s: string)
    ensures Normalize(Trim(s)) == Normalize(s)
    ensures Normalize(s) == "" <==> Trim(s) == ""
  {
    TrimTwice(s);
    assert LowersText(ToLower) && AsciiLower("") == "";
  }

  lemma {:induction false} FirstSurvives(items: seq<Item>, seen: set<string>, q: Query)
    requires q.needle != "" && NoCollision(items)
    requires forall item <- items | ItemKey(item) in seen :: !Fits(item, q)
    ensures First(UniqueFrom(items, seen), q) == Trimmed(First(items, q))
    decreases |items|
  {
    hide Normalize, ItemKey;
    if items != [] {
      var head := items[0];
      NormalizeTrim(head.title);
      assert items == [head] + items[1..];
      if Trim(head.title) == "" || ItemKey(head) in seen {
        FirstSurvives(items[1..], seen, q);
      } else if !Fits(head, q) {
        forall item <- items[1..] | ItemKey(item) in seen + {ItemKey(head)} ensures !Fits(item, q) {
          NormalizeTrim(item.title);
          assert item in items && head in items;
        }
        FirstSurvives(items[1..], seen + {ItemKey(head)}, q);
      }
    }
  }

  lemma FindSurvives(items: seq<Item>, kind: Kind, title: string, group: string)
    requires NoCollision(items)
    ensures FindItem(UniqueFrom(items, {}), kind, title, group) == Trimmed(FindItem(items, kind, title, group))
    ensures FindGroupItem(UniqueFrom(items, {}), kind, group) == Trimmed(FindGroupItem(items, kind, group))
  {
    hide Normalize, NoCollision, UniqueFrom, First, Matching, FirstGrouped, FirstInGroup, FirstUngrouped;
    var needle, g, unique := Normalize(title), Normalize(group), UniqueFrom(items, {});
    MatchingIsFirst(items, kind, needle, g);
    MatchingIsFirst(unique, kind, needle, g);
    MatchingIsFirst(items, kind, g, "");
    MatchingIsFirst(unique, kind, g, "");
    if needle != "" {
      FirstSurvives(items, {}, Query(kind, needle, InGroup(g)));
      FirstSurvives(items, {}, Query(kind, needle, Grouped));
      FirstSurvives(items, {}, Query(kind, needle, Any));
    }
    if g != "" {
      FirstSurvives(items, {}, Query(kind, g, Ungrouped));
    }
  }

  lemma {:induction false} FirstLaws(items: seq<Item>, q: Query)
    ensures First(items, q).Some? ==> First(items, q).value in items && Fits(First(items, q).value, q)
    ensures First(items, q).None? ==> forall item <- items :: !Fits(item, q)
  {
    if items != [] {
      FirstLaws(items[1..], q);
      assert items == [items[0]] + items[1..];
    }
  }

  /** Only the first item of a key survives: `f` keeps every other item of its key out. */
  lemma {:induction false} OnlyFirstSurvives(items: seq<Item>, seen: set<string>, item: Item)
    requires item in UniqueFrom(items, seen)
    ensures ItemKey(item) !in seen && Trim(item.title) != ""
    ensures exists first: nat ::
              && first < |items| && ItemKey(items[first]) == ItemKey(item) && SameName(items[first], item)
              && forall k | 0 <= k < first && Trim(items[k].title) != "" :: ItemKey(items[k]) != ItemKey(item)
    decreases |items|
  {
    hide Normalize, ItemKey, Trim, SameName;
    var head := items[0];
    var kept := head.(title := Trim(head.title));
    TrimTwice(head.title);
    TrimmedKey(head);
    TrimmedHead(head);
    if Trim(head.title) != "" && ItemKey(head) !in seen && item == kept {
      assert ItemKey(items[0]) == ItemKey(item) && SameName(items[0], item);
    } else {
      OnlyFirstSurvives(
        items[1..], if Trim(head.title) == "" || ItemKey(head) in seen then seen else seen + {ItemKey(head)}, item);
      var d: nat :|
        && d < |items[1..]| && ItemKey(items[1..][d]) == ItemKey(item) && SameName(items[1..][d], item)
        && forall k | 0 <= k < d && Trim(items[1..][k].title) != "" :: ItemKey(items[1..][k]) != ItemKey(item);
      assert items[d + 1] == items[1..][d];
      forall k | 0 <= k < d + 1 && Trim(items[k].title) != "" ensures ItemKey(items[k]) != ItemKey(item) {
        if k > 0 { assert items[k] == items[1..][k - 1]; }
      }
    }
  }

  /** No two items of the de-duplicated catalog share a key. */
  lemma {:induction false} UniqueKeys(items: seq<Item>, seen: set<string>)
    ensures forall i, j | 0 <= i < j < |UniqueFrom(items, seen)| ::
              ItemKey(UniqueFrom(items, seen)[i]) != ItemKey(UniqueFrom(items, seen)[j])
    decreases |items|
  {
    hide Normalize, ItemKey, Trim;
    if items != [] {
      var head := items[0];
      if Trim(head.title) == "" || ItemKey(head) in seen {
        UniqueKeys(items[1..], seen);
      } else {
        var tail := UniqueFrom(items[1..], seen + {ItemKey(head)});
        UniqueKeys(items[1..], seen + {ItemKey(head)});
        TrimmedKey(head);
        forall j | 0 <= j < |tail| ensures ItemKey(tail[j]) != ItemKey(head) {
          OnlyFirstSurvives(items[1..], seen + {ItemKey(head)}, tail[j]);
        }
      }
    }
  }

  lemma TrimmedHead(item: Item)
    ensures SameName(item, item.(title := Trim(item.title)))
  {
    hide Normalize, Trim;
    NormalizeTrim(item.title);
  }

  lemma TrimmedKey(item: Item)
    ensures ItemKey(item.(title := Trim(item.title))) == ItemKey(item)
  {
    hide Normalize, Trim;
    NormalizeTrim(item.title);
  }

  /** And every item with a title keeps a representative: an item of its key. */
  lemma {:induction false} EveryKeyKept(items: seq<Item>, seen: set<string>, item: Item)
    requires item in items && Trim(item.title) != "" && ItemKey(item) !in seen
    ensures exists kept <- UniqueFrom(items, seen) :: ItemKey(kept) == ItemKey(item)
    decreases |items|
  {
    hide Normalize, ItemKey, Trim;
    var head := items[0];
    assert items == [head] + items[1..];
    if Trim(head.title) == "" || ItemKey(head) in seen {
      EveryKeyKept(items[1..], seen, item);
    } else if ItemKey(head) == ItemKey(item) {
      TrimmedKey(head);
      assert UniqueFrom(items, seen)[0] == head.(title := Trim(head.title));
    } else {
      EveryKeyKept(items[1..], seen + {ItemKey(head)}, item);
    }
  }

  /** Nothing of the name of `x` survives an earlier item of another name with its key. */
  lemma HiddenFrom(items: seq<Item>, f: nat, x: Item, item: Item)
    requires f < |items| && Trim(items[f].title) != "" && ItemKey(items[f]) == ItemKey(x) && !SameName(items[f], x)
    requires forall k | 0 <= k < f && Trim(items[k].title) != "" :: ItemKey(items[k]) != ItemKey(x)
    requires item in UniqueFrom(items, {})
    ensures !SameName(item, x)
  {
    hide Normalize, ItemKey, Key, UniqueFrom, Trim;
    if SameName(item, x) {
      SameNameSameKey(item, x);
      OnlyFirstSurvives(items, {}, item);
      var first: nat :|
        && first < |items| && ItemKey(items[first]) == ItemKey(item) && SameName(items[first], item)
        && forall k | 0 <= k < first && Trim(items[k].title) != "" :: ItemKey(items[k]) != ItemKey(item);
      NormalizeTrim(items[first].title);
      NormalizeTrim(item.title);
    }
  }

  lemma FoundIsMember(items: seq<Item>, kind: Kind, title: string, group: string)
    ensures FindItem(items, kind, title, group).Some? ==> FindItem(items, kind, title, group).value in items
    ensures FindGroupItem(items, kind, group).Some? ==> FindGroupItem(items, kind, group).value in items
  {
    hide Normalize, First, Matching, FirstGrouped, FirstInGroup, FirstUngrouped;
    var needle, g := Normalize(title), Normalize(group);
    MatchingIsFirst(items, kind, needle, g);
    MatchingIsFirst(items, kind, g, g);
    FirstLaws(items, Query(kind, needle, InGroup(g)));
    FirstLaws(items, Query(kind, needle, Grouped));
    FirstLaws(items, Query(kind, needle, Any));
    FirstLaws(items, Query(kind, g, Ungrouped));
  }

  /** Asking for an item by its own name, in its own group. */
  function FindByName(items: seq<Item>, x: Item): Option<Item> {
    if x.groupLabel.Some? then FindItem(items, x.kind, x.title, x.groupLabel.value)
    else FindGroupItem(items, x.kind, x.title)
  }

  /**
   * Two items of one key with different names: the raw list still finds the second by its name,
   * but no lookup in the de-duplicated one ever gives an item of that name.
   */
  lemma CollisionHides(items: seq<Item>, f: nat, x: Item)
    requires GroupsNamed(items) && f < |items| && x in items
    requires Trim(items[f].title) != "" && Trim(x.title) != ""
    requires ItemKey(items[f]) == ItemKey(x) && !SameName(items[f], x)
    requires forall k | 0 <= k < f && Trim(items[k].title) != "" :: ItemKey(items[k]) != ItemKey(x)
    ensures FindByName(items, x).Some? && SameName(FindByName(items, x).value, x)
    ensures forall kind, title, group :: var found := FindItem(UniqueFrom(items, {}), kind, title, group);
              found.Some? ==> !SameName(found.value, x)
    ensures forall kind, group :: var found := FindGroupItem(UniqueFrom(items, {}), kind, group);
              found.Some? ==> !SameName(found.value, x)
    ensures !Transparent(items)
  {
    hide SameName, ItemKey, UniqueFrom, FindItem, FindGroupItem, Trim;
    var unique := UniqueFrom(items, {});
    forall item <- unique ensures !SameName(item, x) {
      HiddenFrom(items, f, x, item);
    }
    forall kind, title, group {
      FoundIsMember(unique, kind, title, group);
    }
    forall kind, group ensures var found := FindGroupItem(unique, kind, group); found.Some? ==> !SameName(found.value, x) {
      FoundIsMember(unique, kind, "", group);
    }
    if x.groupLabel.Some? {
      FoundByName(items, x);
      TrimmedName(FindByName(items, x).value, x);
    } else {
      FoundAmongGroups(items, x);
      TrimmedName(FindByName(items, x).value, x);
    }
  }

  lemma TrimmedName(item: Item, x: Item)
    requires SameName(item, x)
    ensures SameName(item.(title := Trim(item.title)), x)
  {
    hide Normalize, Trim;
    NormalizeTrim(item.title);
  }

  lemma SameNameSameKey(a: Item, b: Item)
    requires SameName(a, b)
    ensures ItemKey(a) == ItemKey(b)
  {
  }

  lemma FoundByName(items: seq<Item>, x: Item)
    requires x in items && x.groupLabel.Some? && Trim(x.title) != "" && Trim(x.groupLabel.value) != ""
    ensures FindByName(items, x).Some? && SameName(FindByName(items, x).value, x)
  {
    hide Normalize, First, Matching, FirstGrouped, FirstInGroup, FirstUngrouped;
    var needle, g := Normalize(x.title), Normalize(x.groupLabel.value);
    NormalizeTrim(x.title);
    NormalizeTrim(x.groupLabel.value);
    var q := Query(x.kind, needle, InGroup(g));
    MatchingIsFirst(items, x.kind, needle, g);
    FirstLaws(items, q);
    assert Fits(x, q);
    BlankGroup(First(items, q).value, g);
    MatchingNonEmpty(items, x.kind, needle, q);
  }

  lemma BlankGroup(item: Item, g: string)
    requires Normalize(OrBlank(item.groupLabel)) == g && g != ""
    ensures item.groupLabel.Some?
  {
    NormalizeTrim("");
    SkipSpacesIs("", 0, 0);
    assert Trim("") == "";
  }

  lemma MatchingNonEmpty(items: seq<Item>, kind: Kind, needle: string, q: Query)
    requires q.kind == kind && q.needle == needle && First(items, q).Some?
    ensures Matching(items, kind, needle) != []
  {
    hide Normalize;
    FirstLaws(items, q);
    FirstLaws(items, Query(kind, needle, Any));
    MatchingIsFirst(items, kind, needle, "");
  }

  lemma FoundAmongGroups(items: seq<Item>, x: Item)
    requires x in items && x.groupLabel.None? && Trim(x.title) != ""
    ensures FindByName(items, x).Some? && SameName(FindByName(items, x).value, x)
  {
    hide Normalize, First, Matching, FirstGrouped, FirstInGroup, FirstUngrouped;
    var needle := Normalize(x.title);
    NormalizeTrim(x.title);
    var q := Query(x.kind, needle, Ungrouped);
    MatchingIsFirst(items, x.kind, needle, "");
    FirstLaws(items, q);
    assert Fits(x, q);
  }

  lemma {:induction false} FirstOfKey(items: seq<Item>, x: Item) returns (f: nat)
    requires x in items && Trim(x.title) != ""
    ensures f < |items| && Trim(items[f].title) != "" && ItemKey(items[f]) == ItemKey(x)
    ensures forall k | 0 <= k < f && Trim(items[k].title) != "" :: ItemKey(items[k]) != ItemKey(x)
  {
    hide ItemKey, Trim;
    if Trim(items[0].title) != "" && ItemKey(items[0]) == ItemKey(x) {
      f := 0;
    } else {
      assert items == [items[0]] + items[1..];
      var d := FirstOfKey(items[1..], x);
      f := d + 1;
      forall k | 0 <= k < f && Trim(items[k].title) != "" ensures ItemKey(items[k]) != ItemKey(x) {
        if k > 0 { assert items[k] == items[1..][k - 1]; }
      }
    }
  }

  /**
   * With named groups, de-duplication is transparent to every lookup exactly when no two items
   * of different names share a key.
   */
  lemma TransparentExactly(items: seq<Item>)
    requires GroupsNamed(items)
    ensures Transparent(items) <==> NoCollision(items)
  {
    hide Normalize, ItemKey, UniqueFrom, FindItem, FindGroupItem;
    if NoCollision(items) {
      forall kind, title, group {
        FindSurvives(items, kind, title, group);
      }
      forall kind, group
        ensures FindGroupItem(UniqueFrom(items, {}), kind, group) == Trimmed(FindGroupItem(items, kind, group))
      {
        FindSurvives(items, kind, "", group);
      }
    } else {
      var a, b :| a in items && b in items && Trim(a.title) != "" && Trim(b.title) != ""
                  && ItemKey(a) == ItemKey(b) && !SameName(a, b);
      var f := FirstOfKey(items, a);
      if SameName(items[f], a) {
        CollisionHides(items, f, b);
      } else {
        CollisionHides(items, f, a);
      }
    }
  }

  lemma PlainLower(s: string)
    requires forall i | 0 <= i < |s| :: 'a' <= s[i] <= 'z' || s[i] == ':'
    ensures ToLower(s) == s
  {
    assert LowersText(ToLower) && Ascii(s);
    assert AsciiLower(s) == s;
  }

  lemma PlainText(s: string)
    requires s != "" && forall i | 0 <= i < |s| :: 'a' <= s[i] <= 'z' || s[i] == ':'
    ensures Normalize(s) == s && Trim(s) == s
  {
    hide IsSpace;
    PlainLower(s);
    NoSpace(s[0]);
    NoSpace(s[|s| - 1]);
    TrimStartKeeps(s);
  }

  lemma NoSpace(c: char)
    requires 'a' <= c <= 'z' || c == ':'
    ensures !IsSpace(c)
  {
  }

  /** For example, "c" in the group "a:b" and "b:c" in the group "a" share a key. */
  lemma ColonCollides()
    ensures !Transparent([Item(Context, "c", Some("a:b"), "1", None), Item(Context, "b:c", Some("a"), "2", None)])
  {
    hide Transparent, Normalize, Trim;
    var x, y := Item(Context, "c", Some("a:b"), "1", None), Item(Context, "b:c", Some("a"), "2", None);
    PlainText("c");
    PlainText("a:b");
    PlainText("b:c");
    PlainText("a");
    assert ItemKey(x) == "context:a:b:c" == ItemKey(y);
    assert x in [x, y] && y in [x, y];
    TransparentExactly([x, y]);
  }

  // ---------------------------------------------------------------------------
  // Group names without a colon never collide
  // ---------------------------------------------------------------------------

  lemma SplitAtColon(a: string, b: string, a': string, b': string)
    requires a + ":" + b == a' + ":" + b' && ':' !in a && ':' !in a'
    ensures a == a' && b == b'
  {
    var s := a + ":" + b;
    assert s[|a|] == ':' && (a' + ":" + b')[|a'|] == ':';
    assert a == s[..|a|] && a' == s[..|a'|];
    assert b == s[|a| + 1..] && b' == s[|a'| + 1..];
  }

  lemma NormalizeColon(s: string)
    requires ':' !in s
    ensures ':' !in Normalize(s)
  {
    TrimChars(s);
    assert LowersText(ToLower);
  }

  ghost predicate GroupsColonFree(items: seq<Item>) {
    forall item <- items | item.groupLabel.Some? :: ':' !in item.groupLabel.value
  }

  /** Labels may hold colons; group names without one are enough. */
  lemma ColonFreeNoCollision(items: seq<Item>)
    requires GroupsNamed(items) && GroupsColonFree(items)
    ensures NoCollision(items)
  {
    hide Normalize;
    forall a, b | a in items && b in items && ItemKey(a) == ItemKey(b) ensures SameName(a, b) {
      KeyParts(a);
      KeyParts(b);
      var ga, gb := Normalize(OrBlank(a.groupLabel)), Normalize(OrBlank(b.groupLabel));
      SplitAtColon(KindName(a.kind), ga + ":" + Normalize(a.title), KindName(b.kind), gb + ":" + Normalize(b.title));
      SplitAtColon(ga, Normalize(a.title), gb, Normalize(b.title));
      KindNames(a.kind, b.kind);
      NamedOrBlank(a);
      NamedOrBlank(b);
    }
  }

  lemma NamedOrBlank(item: Item)
    requires item.groupLabel.Some? ==> Trim(item.groupLabel.value) != ""
    ensures item.groupLabel.Some? <==> Normalize(OrBlank(item.groupLabel)) != ""
  {
    SkipSpacesIs("", 0, 0);
    assert Trim("") == "";
    NormalizeTrim("");
    if item.groupLabel.Some? { NormalizeTrim(item.groupLabel.value); }
  }

  lemma KindNames(a: Kind, b: Kind)
    ensures KindName(a) == KindName(b) ==> a == b
    ensures ':' !in KindName(a)
  {
    assert KindName(a)[0] == (match a case Context => 'c' case Template => 't' case Skill => 's' case Handoff => 'h');
    assert KindName(b)[0] == (match b case Context => 'c' case Template => 't' case Skill => 's' case Handoff => 'h');
  }

  lemma KeyParts(item: Item)
    requires item.groupLabel.Some? ==> ':' !in item.groupLabel.value
    ensures ':' !in KindName(item.kind) && ':' !in Normalize(OrBlank(item.groupLabel))
    ensures ItemKey(item)
            == KindName(item.kind) + ":" + (Normalize(OrBlank(item.groupLabel)) + ":" + Normalize(item.title))
  {
    KindNames(item.kind, item.kind);
    NormalizeColon(OrBlank(item.groupLabel));
  }

  // ---------------------------------------------------------------------------
  // Building the catalog
  // ---------------------------------------------------------------------------

  datatype GroupEntry = GroupEntry(id: string, text: string)

  datatype Group = Group(id: string, name: string, entries: seq<GroupEntry>)

  datatype SkillSummary = SkillSummary(id: string, skillKey: string, name: string)

  function EntryItem(kind: Kind, g: Group, e: GroupEntry): Item {
    Item(kind, e.text, Some(g.name), e.id, Some(g.id))
  }

  function EntryItems(kind: Kind, g: Group, entries: seq<GroupEntry>): seq<Item> {
    if entries == [] then [] else [EntryItem(kind, g, entries[0])] + EntryItems(kind, g, entries[1..])
  }

  function GroupItems(kind: Kind, groups: seq<Group>): seq<Item> {
    if groups == [] then []
    else
      EntryItems(kind, groups[0], groups[0].entries)
      + [Item(kind, groups[0].name, None, groups[0].id, Some(groups[0].id))]
      + GroupItems(kind, groups[1..])
  }

  function SkillItems(skills: seq<SkillSummary>): seq<Item> {
    if skills == [] then []
    else
      [Item(Skill, skills[0].name, None, skills[0].id, None), Item(Skill, skills[0].skillKey, None, skills[0].id, None)]
      + SkillItems(skills[1..])
  }

  /** Hand-off topics are trimmed, and blank ones skipped, before they become items. */
  function Topics(entries: seq<GroupEntry>): seq<GroupEntry> {
    if entries == [] then []
    else if Trim(entries[0].text) == "" then Topics(entries[1..])
    else [entries[0].(text := Trim(entries[0].text))] + Topics(entries[1..])
  }

  function TopicGroups(groups: seq<Group>): seq<Group> {
    if groups == [] then []
    else [groups[0].(entries := Topics(groups[0].entries))] + TopicGroups(groups[1..])
  }

  function EntryMap(g: Group, entries: seq<GroupEntry>): map<string, Item> {
    if entries == [] then map[]
    else EntryMap(g, entries[..|entries| - 1])[entries[|entries| - 1].id := EntryItem(Handoff, g, entries[|entries| - 1])]
  }

  function HandoffMap(groups: seq<Group>): map<string, Item> {
    if groups == [] then map[]
    else HandoffMap(groups[..|groups| - 1]) + EntryMap(groups[|groups| - 1], groups[|groups| - 1].entries)
  }

  function RawItems(context: seq<Group>, templates: seq<Group>, handoff: seq<Group>, skills: seq<SkillSummary>)
    : seq<Item>
  {
    GroupItems(Context, context) + GroupItems(Template, templates) + SkillItems(skills)
    + GroupItems(Handoff, TopicGroups(handoff))
  }

  function BuildCatalog(context: seq<Group>, templates: seq<Group>, handoff: seq<Group>, skills: seq<SkillSummary>)
    : Catalog
  {
    Catalog(UniqueFrom(RawItems(context, templates, handoff, skills), {}), HandoffMap(TopicGroups(handoff)))
  }

  lemma {:induction false} EntryItemsAppend(kind: Kind, g: Group, a: seq<GroupEntry>, e: GroupEntry)
    ensures EntryItems(kind, g, a + [e]) == EntryItems(kind, g, a) + [EntryItem(kind, g, e)]
  {
    if a == [] {
      assert a + [e] == [e];
    } else {
      assert (a + [e])[1..] == a[1..] + [e];
      EntryItemsAppend(kind, g, a[1..], e);
    }
  }

  method PushGroups(kind: Kind, groups: seq<Group>, before: seq<Item>) returns (items: seq<Item>)
    ensures items == before + GroupItems(kind, groups)
  {
    items := before;
    for n := 0 to |groups|
      invariant items + GroupItems(kind, groups[n..]) == before + GroupItems(kind, groups)
    {
      var g := groups[n];
      assert groups[n..][1..] == groups[n + 1..];
      ghost var start, tail := items, GroupItems(kind, groups[n + 1..]);
      for k := 0 to |g.entries|
        invariant items == start + EntryItems(kind, g, g.entries[..k])
      {
        EntryItemsAppend(kind, g, g.entries[..k], g.entries[k]);
        assert g.entries[..k + 1] == g.entries[..k] + [g.entries[k]];
        items := items + [EntryItem(kind, g, g.entries[k])];
      }
      assert g.entries[..|g.entries|] == g.entries;
      var own := Item(kind, g.name, None, g.id, Some(g.id));
      Sequences.Assoc(start, EntryItems(kind, g, g.entries), [own]);
      Sequences.Assoc(start, EntryItems(kind, g, g.entries) + [own], tail);
      items := items + [own];
    }
  }

  method PushSkills(skills: seq<SkillSummary>, before: seq<Item>) returns (items: seq<Item>)
    ensures items == before + SkillItems(skills)
  {
    items := before;
    for n := 0 to |skills|
      invariant items + SkillItems(skills[n..]) == before + SkillItems(skills)
    {
      assert skills[n..][1..] == skills[n + 1..];
      var two := [Item(Skill, skills[n].name, None, skills[n].id, None),
                  Item(Skill, skills[n].skillKey, None, skills[n].id, None)];
      Sequences.Assoc(items, two, SkillItems(skills[n + 1..]));
      items := items + two;
    }
  }

  lemma {:induction false} TopicsAppend(a: seq<GroupEntry>, e: GroupEntry)
    ensures Topics(a + [e]) == if Trim(e.text) == "" then Topics(a) else Topics(a) + [e.(text := Trim(e.text))]
  {
    hide Trim;
    if a == [] {
      assert a + [e] == [e];
      assert [e][1..] == [];
    } else {
      assert (a + [e])[1..] == a[1..] + [e];
      TopicsAppend(a[1..], e);
    }
  }

  lemma GroupItemsOne(kind: Kind, g: Group)
    ensures GroupItems(kind, [g]) == EntryItems(kind, g, g.entries) + [Item(kind, g.name, None, g.id, Some(g.id))]
  {
    assert [g][1..] == [];
  }

  /** One more topic: its item and its place in the table. */
  lemma TopicStep(g: Group, entries: seq<GroupEntry>, e: GroupEntry)
    ensures var topics, topics' := Topics(entries), Topics(entries + [e]);
            if Trim(e.text) == "" then topics' == topics
            else
              var item := EntryItem(Handoff, g, e.(text := Trim(e.text)));
              && EntryItems(Handoff, g, topics') == EntryItems(Handoff, g, topics) + [item]
              && EntryMap(g, topics') == EntryMap(g, topics)[e.id := item]
  {
    hide Trim, Topics, EntryItems;
    var topics := Topics(entries);
    TopicsAppend(entries, e);
    EntryItemsAppend(Handoff, g, topics, e.(text := Trim(e.text)));
    assert (topics + [e.(text := Trim(e.text))])[..|topics|] == topics;
  }

  lemma NoTopics(g: Group, entries: seq<GroupEntry>)
    requires entries == []
    ensures EntryItems(Handoff, g, Topics(entries)) == [] && EntryMap(g, Topics(entries)) == map[]
  {
  }

  /** The items and the id table of one hand-off group. */
  method PushHandoffGroup(g: Group, before: seq<Item>, table: map<string, Item>)
    returns (items: seq<Item>, byEntryId: map<string, Item>)
    ensures items == before + GroupItems(Handoff, [g.(entries := Topics(g.entries))])
    ensures byEntryId == table + EntryMap(g.(entries := Topics(g.entries)), Topics(g.entries))
  {
    hide Trim, GroupItems, Topics, EntryItems, EntryMap;
    items, byEntryId := before, table;
    ghost var g' := g.(entries := Topics(g.entries));
    NoTopics(g', g.entries[..0]);
    for k := 0 to |g.entries|
      invariant items == before + EntryItems(Handoff, g', Topics(g.entries[..k]))
      invariant byEntryId == table + EntryMap(g', Topics(g.entries[..k]))
    {
      var e := g.entries[k];
      var topic := Trim(e.text);
      assert g.entries[..k + 1] == g.entries[..k] + [e];
      TopicStep(g', g.entries[..k], e);
      if topic == "" { continue; }
      var item := Item(Handoff, topic, Some(g.name), e.id, Some(g.id));
      Sequences.Assoc(before, EntryItems(Handoff, g', Topics(g.entries[..k])), [item]);
      items := items + [item];
      byEntryId := byEntryId[e.id := item];
    }
    assert g.entries[..|g.entries|] == g.entries;
    GroupItemsOne(Handoff, g');
    items := items + [Item(Handoff, g.name, None, g.id, Some(g.id))];
  }

  lemma {:induction false} GroupItemsAppend(kind: Kind, a: seq<Group>, g: Group)
    ensures GroupItems(kind, a + [g]) == GroupItems(kind, a) + GroupItems(kind, [g])
  {
    if a == [] {
      assert a + [g] == [g];
    } else {
      assert (a + [g])[1..] == a[1..] + [g];
      GroupItemsAppend(kind, a[1..], g);
    }
  }

  lemma {:induction false} TopicGroupsAppend(a: seq<Group>, g: Group)
    ensures TopicGroups(a + [g]) == TopicGroups(a) + [g.(entries := Topics(g.entries))]
  {
    if a == [] {
      assert a + [g] == [g];
      assert [g][1..] == [];
    } else {
      assert (a + [g])[1..] == a[1..] + [g];
      TopicGroupsAppend(a[1..], g);
    }
  }

  method PushHandoff(handoff: seq<Group>, before: seq<Item>)
    returns (items: seq<Item>, byEntryId: map<string, Item>)
    ensures items == before + GroupItems(Handoff, TopicGroups(handoff))
    ensures byEntryId == HandoffMap(TopicGroups(handoff))
  {
    hide Topics, EntryMap;
    items, byEntryId := before, map[];
    for n := 0 to |handoff|
      invariant items == before + GroupItems(Handoff, TopicGroups(handoff[..n]))
      invariant byEntryId == HandoffMap(TopicGroups(handoff[..n]))
    {
      var g := handoff[n];
      ghost var done := TopicGroups(handoff[..n]);
      ghost var g' := g.(entries := Topics(g.entries));
      assert handoff[..n + 1] == handoff[..n] + [g];
      TopicGroupsAppend(handoff[..n], g);
      GroupItemsAppend(Handoff, done, g');
      assert (done + [g'])[..|done|] == done;
      Sequences.Assoc(before, GroupItems(Handoff, done), GroupItems(Handoff, [g']));
      items, byEntryId := PushHandoffGroup(g, items, byEntryId);
    }
    assert handoff[..|handoff|] == handoff;
  }

  method BuildKnowledgeSourceCatalog(
    context: seq<Group>, templates: seq<Group>, handoff: seq<Group>, skills: seq<SkillSummary>)
    returns (catalog: Catalog)
    ensures catalog == BuildCatalog(context, templates, handoff, skills)
  {
    hide UniqueFrom, GroupItems, SkillItems, HandoffMap, TopicGroups;
    var items := PushGroups(Context, context, []);
    assert items == GroupItems(Context, context);
    items := PushGroups(Template, templates, items);
    items := PushSkills(skills, items);
    var byEntryId;
    items, byEntryId := PushHandoff(handoff, items);
    var unique := UniqueCatalogItems(items);
    catalog := Catalog(unique, byEntryId);
  }

  ghost predicate GoodNames(groups: seq<Group>) {
    forall g <- groups :: Trim(g.name) != "" && ':' !in g.name
  }

  ghost predicate GroupedBy(items: seq<Item>, groups: seq<Group>) {
    forall item <- items | item.groupLabel.Some? :: exists g <- groups :: g.name == item.groupLabel.value
  }

  lemma {:induction false} EntryItemsGrouped(kind: Kind, g: Group, entries: seq<GroupEntry>)
    ensures forall item <- EntryItems(kind, g, entries) :: item.groupLabel == Some(g.name)
  {
    if entries != [] {
      EntryItemsGrouped(kind, g, entries[1..]);
    }
  }

  lemma {:induction false} GroupItemsGrouped(kind: Kind, groups: seq<Group>)
    ensures GroupedBy(GroupItems(kind, groups), groups)
  {
    if groups != [] {
      GroupItemsGrouped(kind, groups[1..]);
      EntryItemsGrouped(kind, groups[0], groups[0].entries);
      forall item <- GroupItems(kind, groups) | item.groupLabel.Some?
        ensures exists g <- groups :: g.name == item.groupLabel.value
      {
        if item in EntryItems(kind, groups[0], groups[0].entries) {
          assert groups[0] in groups;
        } else {
          assert item in GroupItems(kind, groups[1..]);
          var g :| g in groups[1..] && g.name == item.groupLabel.value;
          assert g in groups;
        }
      }
    }
  }

  lemma {:induction false} SkillItemsUngrouped(skills: seq<SkillSummary>)
    ensures forall item <- SkillItems(skills) :: item.groupLabel.None?
  {
    if skills != [] {
      SkillItemsUngrouped(skills[1..]);
    }
  }

  lemma {:induction false} TopicGroupsNames(groups: seq<Group>)
    requires GoodNames(groups)
    ensures GoodNames(TopicGroups(groups))
  {
    if groups != [] {
      assert groups == [groups[0]] + groups[1..];
      TopicGroupsNames(groups[1..]);
    }
  }

  /** With group names that are neither blank nor hold a colon, the built catalog answers as its raw list. */
  lemma BuiltCatalogTransparent(context: seq<Group>, templates: seq<Group>, handoff: seq<Group>, skills: seq<SkillSummary>)
    requires GoodNames(context) && GoodNames(templates) && GoodNames(handoff)
    ensures Transparent(RawItems(context, templates, handoff, skills))
  {
    hide Transparent, NoCollision, TopicGroups, GroupItems, SkillItems;
    var raw := RawItems(context, templates, handoff, skills);
    GroupItemsGrouped(Context, context);
    GroupItemsGrouped(Template, templates);
    GroupItemsGrouped(Handoff, TopicGroups(handoff));
    SkillItemsUngrouped(skills);
    TopicGroupsNames(handoff);
    forall item <- raw | item.groupLabel.Some?
      ensures Trim(item.groupLabel.value) != "" && ':' !in item.groupLabel.value
    {
      assert item in GroupItems(Context, context) || item in GroupItems(Template, templates)
             || item in SkillItems(skills) || item in GroupItems(Handoff, TopicGroups(handoff));
    }
    ColonFreeNoCollision(raw);
    TransparentExactly(raw);
  }

  // ---------------------------------------------------------------------------
  // Reply sources
  // ---------------------------------------------------------------------------

  /** A reference as the model wrote it; fields are absent when they are not strings or no known kind. */
  datatype RawSource = RawSource(kind: Option<Kind>, title: Option<string>, group: Option<string>)

  datatype ModelSource = ModelSource(kind: Kind, group: string, title: string)

  function ParseModelSources(raw: seq<RawSource>): seq<ModelSource> {
    if raw == [] then []
    else
      var title := Trim(OrBlank(raw[0].title));
      if raw[0].kind.None? || title == "" then ParseModelSources(raw[1..])
      else [ModelSource(raw[0].kind.value, Trim(OrBlank(raw[0].group)), title)] + ParseModelSources(raw[1..])
  }

  /** Fields left out when they are empty. */
  function NonEmpty(s: Option<string>): Option<string> {
    if s.Some? && s.value != "" then s else None
  }

  function ToReplySource(item: Item): Source {
    Source(item.kind, item.title, NonEmpty(item.groupLabel), Some(item.id), NonEmpty(item.groupId))
  }

  function SourceKey(s: Source): string {
    Key(s.kind, s.groupLabel, s.title)
  }

  predicate HasKey(out: seq<Source>, key: string) {
    exists i | 0 <= i < |out| :: SourceKey(out[i]) == key
  }

  function PushUnique(out: seq<Source>, s: Source): seq<Source> {
    if HasKey(out, SourceKey(s)) then out else out + [s]
  }

  function Reference(catalog: Catalog, r: ModelSource): Option<Item> {
    var item := FindItem(catalog.items, r.kind, r.title, r.group);
    if item.Some? then item
    else
      var groupItem := FindGroupItem(catalog.items, r.kind, r.group);
      if groupItem.Some? then groupItem else FindGroupItem(catalog.items, r.kind, r.title)
  }

  /** The source of a loaded skill or a hand-off topic: the catalog's item, or the bare name. */
  function Named(catalog: Catalog, kind: Kind, name: string): Source {
    var item := FindItem(catalog.items, kind, name, "");
    if item.Some? then ToReplySource(item.value) else Source(kind, name, None, None, None)
  }

  function ReferenceSources(catalog: Catalog, refs: seq<ModelSource>): seq<Source> {
    if refs == [] then []
    else
      var item := Reference(catalog, refs[0]);
      (if item.Some? then [ToReplySource(item.value)] else []) + ReferenceSources(catalog, refs[1..])
  }

  function SkillSources(catalog: Catalog, names: seq<string>): seq<Source> {
    if names == [] then []
    else (if Trim(names[0]) != "" then [Named(catalog, Skill, Trim(names[0]))] else []) + SkillSources(catalog, names[1..])
  }

  function HandoffSources(catalog: Catalog, topic: Option<string>): seq<Source> {
    if Trim(OrBlank(topic)) != "" then [Named(catalog, Handoff, Trim(OrBlank(topic)))] else []
  }

  /** Everything a reply points at: resolved model references, then loaded skills, then the hand-off. */
  function Requested(
    catalog: Catalog, modelSources: seq<RawSource>, loadedSkillNames: seq<string>, topic: Option<string>): seq<Source>
  {
    ReferenceSources(catalog, ParseModelSources(modelSources))
    + SkillSources(catalog, loadedSkillNames) + HandoffSources(catalog, topic)
  }

  function PushAll(out: seq<Source>, asked: seq<Source>): seq<Source>
    decreases |asked|
  {
    if asked == [] then out else PushAll(PushUnique(out, asked[0]), asked[1..])
  }

  lemma {:induction false} PushAllAppend(out: seq<Source>, a: seq<Source>, b: seq<Source>)
    ensures PushAll(out, a + b) == PushAll(PushAll(out, a), b)
    decreases |a|
  {
    hide PushUnique;
    if a == [] {
      assert a + b == b;
    } else {
      assert (a + b)[1..] == a[1..] + b;
      PushAllAppend(PushUnique(out, a[0]), a[1..], b);
    }
  }

  lemma PushNext(out: seq<Source>, s: Source, asked: seq<Source>)
    ensures PushAll(out, [s] + asked) == PushAll(PushUnique(out, s), asked)
  {
    assert ([s] + asked)[1..] == asked;
  }

  /** `kept` holds, at increasing places `at` of `asked`, exactly the first source of each key. */
  ghost predicate FirstOfEachKey(asked: seq<Source>, kept: seq<Source>, at: seq<nat>) {
    && |at| == |kept|
    && (forall i, j | 0 <= i < j < |at| :: at[i] < at[j])
    && (forall i | 0 <= i < |at| :: at[i] < |asked| && kept[i] == asked[at[i]])
    && (forall i, n | 0 <= i < |at| && 0 <= n < at[i] :: SourceKey(asked[n]) != SourceKey(asked[at[i]]))
    && (forall n {:trigger HasKey(kept, SourceKey(asked[n]))} | 0 <= n < |asked| :: HasKey(kept, SourceKey(asked[n])))
  }

  lemma FirstOfEachKeyStep(asked: seq<Source>, kept: seq<Source>, at: seq<nat>, s: Source) returns (at': seq<nat>)
    requires FirstOfEachKey(asked, kept, at)
    ensures FirstOfEachKey(asked + [s], PushUnique(kept, s), at')
  {
    hide SourceKey, HasKey;
    at' := at;
    PushLaws(kept, s);
    assert forall n | 0 <= n < |asked| :: (asked + [s])[n] == asked[n];
    if !HasKey(kept, SourceKey(s)) {
      at' := at + [|asked|];
      NewKeyKept(asked, kept, at, s);
    }
  }

  lemma NewKeyKept(asked: seq<Source>, kept: seq<Source>, at: seq<nat>, s: Source)
    requires FirstOfEachKey(asked, kept, at) && !HasKey(kept, SourceKey(s))
    ensures FirstOfEachKey(asked + [s], kept + [s], at + [|asked|])
  {
    hide SourceKey, HasKey;
    var asked', kept', at' := asked + [s], kept + [s], at + [|asked|];
    forall i | 0 <= i < |at'| ensures at'[i] < |asked'| && kept'[i] == asked'[at'[i]] {
    }
    forall i, n | 0 <= i < |at'| && 0 <= n < at'[i] ensures SourceKey(asked'[n]) != SourceKey(asked'[at'[i]]) {
      assert asked'[n] == asked[n];
      if i == |at| { assert HasKey(kept, SourceKey(asked[n])); }
    }
    forall n | 0 <= n < |asked'| ensures HasKey(kept', SourceKey(asked'[n])) {
      PushLaws(kept, s);
      if n < |asked| { assert HasKey(kept, SourceKey(asked[n])); }
    }
  }

  lemma PushLast(out: seq<Source>, asked: seq<Source>, s: Source)
    ensures PushAll(out, asked + [s]) == PushUnique(PushAll(out, asked), s)
  {
    hide PushUnique;
    PushAllAppend(out, asked, [s]);
  }

  /** What is kept of the requested sources: exactly the first of each key, in the order requested. */
  lemma {:induction false} FirstOfEachKeyKept(asked: seq<Source>) returns (at: seq<nat>)
    ensures FirstOfEachKey(asked, PushAll([], asked), at)
    decreases |asked|
  {
    if asked == [] {
      hide SourceKey, HasKey;
      at := [];
    } else {
      hide *;
      var before, s := asked[..|asked| - 1], asked[|asked| - 1];
      at := FirstOfEachKeyKept(before);
      at := FirstOfEachKeyStep(before, PushAll([], before), at, s);
      assert asked == before + [s];
      PushLast([], before, s);
    }
  }

  /** So no two kept sources share a key, and something is kept whenever something is requested. */
  lemma KeptAreDistinct(asked: seq<Source>)
    ensures forall i, j | 0 <= i < j < |PushAll([], asked)| ::
              SourceKey(PushAll([], asked)[i]) != SourceKey(PushAll([], asked)[j])
    ensures PushAll([], asked) == [] <==> asked == []
  {
    hide SourceKey, PushUnique;
    var at := FirstOfEachKeyKept(asked);
    if asked != [] {
      assert HasKey(PushAll([], asked), SourceKey(asked[0]));
    }
  }

  lemma PushLaws(out: seq<Source>, s: Source)
    ensures HasKey(PushUnique(out, s), SourceKey(s))
    ensures forall key :: HasKey(out, key) ==> HasKey(PushUnique(out, s), key)
  {
    hide SourceKey;
    var out' := PushUnique(out, s);
    assert out' != out ==> out'[|out|] == s;
    forall key | HasKey(out, key) ensures HasKey(out', key) {
      var i :| 0 <= i < |out| && SourceKey(out[i]) == key;
      assert out'[i] == out[i];
    }
  }

  method ResolveAgentReplySources(
    modelSources: seq<RawSource>, loadedSkillNames: seq<string>, handoffTopicLabel: Option<string>, catalog: Catalog)
    returns (resolved: seq<Source>)
    ensures resolved == PushAll([], Requested(catalog, modelSources, loadedSkillNames, handoffTopicLabel))
    ensures forall i, j | 0 <= i < j < |resolved| :: SourceKey(resolved[i]) != SourceKey(resolved[j])
  {
    hide SourceKey, Reference, Named, ToReplySource, Trim, PushUnique;
    resolved := [];
    ghost var asked := Requested(catalog, modelSources, loadedSkillNames, handoffTopicLabel);
    var refs := ParseModelSources(modelSources);
    for n := 0 to |refs|
      invariant PushAll(resolved, ReferenceSources(catalog, refs[n..])) == PushAll([], ReferenceSources(catalog, refs))
    {
      assert refs[n..][1..] == refs[n + 1..];
      var item := Reference(catalog, refs[n]);
      ghost var rest := ReferenceSources(catalog, refs[n + 1..]);
      assert ReferenceSources(catalog, refs[n..]) == if item.Some? then [ToReplySource(item.value)] + rest else rest;
      if item.Some? {
        PushNext(resolved, ToReplySource(item.value), rest);
        resolved := PushUnique(resolved, ToReplySource(item.value));
      }
    }
    ghost var fromModel := resolved;
    for n := 0 to |loadedSkillNames|
      invariant PushAll(resolved, SkillSources(catalog, loadedSkillNames[n..]))
             == PushAll(fromModel, SkillSources(catalog, loadedSkillNames))
    {
      assert loadedSkillNames[n..][1..] == loadedSkillNames[n + 1..];
      var trimmed := Trim(loadedSkillNames[n]);
      ghost var rest := SkillSources(catalog, loadedSkillNames[n + 1..]);
      assert SkillSources(catalog, loadedSkillNames[n..])
             == if trimmed != "" then [Named(catalog, Skill, trimmed)] + rest else rest;
      if trimmed == "" { continue; }
      PushNext(resolved, Named(catalog, Skill, trimmed), rest);
      resolved := PushUnique(resolved, Named(catalog, Skill, trimmed));
    }
    PushAllAppend([], ReferenceSources(catalog, refs), SkillSources(catalog, loadedSkillNames));
    PushAllAppend([], ReferenceSources(catalog, refs) + SkillSources(catalog, loadedSkillNames),
                  HandoffSources(catalog, handoffTopicLabel));
    var handoff := Trim(OrBlank(handoffTopicLabel));
    if handoff != "" {
      resolved := PushUnique(resolved, Named(catalog, Handoff, handoff));
    }
    KeptAreDistinct(asked);
  }

  lemma {:induction false} NamedSkillRequested(catalog: Catalog, names: seq<string>)
    requires exists name <- names :: Trim(name) != ""
    ensures SkillSources(catalog, names) != []
  {
    hide Named, Trim;
    if Trim(names[0]) == "" {
      assert names == [names[0]] + names[1..];
      NamedSkillRequested(catalog, names[1..]);
    }
  }

  const HUMAN_HANDOFF := "Human handoff"

  function ResolveHandoffTopicLabel(topicEntryId: Option<string>, catalog: Catalog, handoffCalled: bool): Option<string> {
    if !handoffCalled then None
    else
      var id := OrBlank(topicEntryId);
      if id != "" && id in catalog.handoffByEntryId && Trim(catalog.handoffByEntryId[id].title) != ""
      then Some(Trim(catalog.handoffByEntryId[id].title))
      else Some(HUMAN_HANDOFF)
  }

  predicate NeedsKnowledgeSourcesRegen(knowledgeUsed: bool, replySources: seq<Source>) {
    knowledgeUsed && replySources == []
  }

  /** A called hand-off always has a title to show. */
  lemma HandoffLabelNonBlank(topicEntryId: Option<string>, catalog: Catalog)
    ensures var title := ResolveHandoffTopicLabel(topicEntryId, catalog, true);
            title.Some? && Trim(title.value) != ""
  {
    hide Trim;
    var id := OrBlank(topicEntryId);
    if id in catalog.handoffByEntryId {
      TrimTwice(catalog.handoffByEntryId[id].title);
    }
    TrimKeepsText(HUMAN_HANDOFF);
  }

  /** A loaded skill with a name, or a called hand-off, always leaves a source, so nothing is regenerated. */
  method ResolveFromStructuredOutput(
    modelSources: seq<RawSource>, loadedSkillNames: seq<string>, topicEntryId: Option<string>, handoffCalled: bool,
    knowledgeUsed: bool, catalog: Catalog)
    returns (resolved: seq<Source>, regen: bool)
    ensures resolved == PushAll([], Requested(catalog, modelSources, loadedSkillNames,
                                              ResolveHandoffTopicLabel(topicEntryId, catalog, handoffCalled)))
    ensures regen <==> knowledgeUsed && resolved == []
    ensures handoffCalled || (exists name <- loadedSkillNames :: Trim(name) != "") ==> !regen
  {
    var title := ResolveHandoffTopicLabel(topicEntryId, catalog, handoffCalled);
    resolved := ResolveAgentReplySources(modelSources, loadedSkillNames, title, catalog);
    regen := NeedsKnowledgeSourcesRegen(knowledgeUsed, resolved);
    KeptAreDistinct(Requested(catalog, modelSources, loadedSkillNames, title));
    if handoffCalled {
      HandoffLabelNonBlank(topicEntryId, catalog);
    } else if exists name <- loadedSkillNames :: Trim(name) != "" {
      NamedSkillRequested(catalog, loadedSkillNames);
    }
  }
}
