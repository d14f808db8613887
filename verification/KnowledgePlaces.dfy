/**
 * The catalog and the reply sources of `KnowledgeSources`, place by place: which item stands where
 * in the catalog, and which item a reference gives.
 */
module KnowledgePlaces {
  import opened KnowledgeSources
  import opened JsString
  import opened Options
  import opened Sequences

  // ---------------------------------------------------------------------------
  // Lookup
  // ---------------------------------------------------------------------------

  /** The item at `n` has this kind and, up to normalization, this title. */
  ghost predicate NamedAt(items: seq<Item>, kind: Kind, title: string, n: nat) {
    n < |items| && items[n].kind == kind && Normalize(items[n].title) == Normalize(title) && Normalize(title) != ""
  }

  ghost predicate InGroupAt(items: seq<Item>, kind: Kind, title: string, group: string, n: nat) {
    && NamedAt(items, kind, title, n) && Normalize(group) != ""
    && Normalize(OrBlank(items[n].groupLabel)) == Normalize(group)
  }

  ghost predicate GroupedAt(items: seq<Item>, kind: Kind, title: string, n: nat) {
    NamedAt(items, kind, title, n) && items[n].groupLabel.Some?
  }

  /** A group of this name: an item outside any group. */
  ghost predicate GroupAt(items: seq<Item>, kind: Kind, title: string, n: nat) {
    NamedAt(items, kind, title, n) && items[n].groupLabel.None?
  }

  /** The first item of the title in the named group; failing that the first in any; failing that the first. */
  ghost predicate FoundAt(items: seq<Item>, kind: Kind, title: string, group: string, n: nat) {
    || (InGroupAt(items, kind, title, group, n) && forall m | 0 <= m < n :: !InGroupAt(items, kind, title, group, m))
    || (&& GroupedAt(items, kind, title, n) && (forall m | 0 <= m < n :: !GroupedAt(items, kind, title, m))
        && forall m: nat :: !InGroupAt(items, kind, title, group, m))
    || (&& NamedAt(items, kind, title, n) && (forall m | 0 <= m < n :: !NamedAt(items, kind, title, m))
        && forall m: nat :: !InGroupAt(items, kind, title, group, m) && !GroupedAt(items, kind, title, m))
  }

  ghost predicate GroupFoundAt(items: seq<Item>, kind: Kind, title: string, n: nat) {
    GroupAt(items, kind, title, n) && forall m | 0 <= m < n :: !GroupAt(items, kind, title, m)
  }

  ghost predicate NoneNamed(items: seq<Item>, kind: Kind, title: string) {
    forall n: nat :: !NamedAt(items, kind, title, n)
  }

  ghost predicate NoGroup(items: seq<Item>, kind: Kind, title: string) {
    forall n: nat :: !GroupAt(items, kind, title, n)
  }

  /** An item of the title wins over the named group, and that over a group of the title. */
  ghost predicate LinkedAt(items: seq<Item>, r: ModelSource, n: nat) {
    || FoundAt(items, r.kind, r.title, r.group, n)
    || (NoneNamed(items, r.kind, r.title) && GroupFoundAt(items, r.kind, r.group, n))
    || (NoneNamed(items, r.kind, r.title) && NoGroup(items, r.kind, r.group) && GroupFoundAt(items, r.kind, r.title, n))
  }

  lemma {:induction false} FirstPlace(items: seq<Item>, q: Query) returns (n: nat)
    ensures First(items, q).Some? ==>
              n < |items| && First(items, q) == Some(items[n]) && Fits(items[n], q)
              && forall m | 0 <= m < n :: !Fits(items[m], q)
    ensures First(items, q).None? ==> forall m | 0 <= m < |items| :: !Fits(items[m], q)
  {
    hide Fits;
    n := 0;
    if items != [] && !Fits(items[0], q) {
      var d := FirstPlace(items[1..], q);
      n := d + 1;
    }
  }

  /** What a lookup finds, and that it finds nothing only when no item has the title. */
  lemma FindItemExactly(items: seq<Item>, kind: Kind, title: string, group: string)
    ensures match FindItem(items, kind, title, group)
            case Some(item) => exists n: nat | FoundAt(items, kind, title, group, n) :: item == items[n]
            case None => NoneNamed(items, kind, title)
  {
    hide First, Matching, FirstInGroup, FirstGrouped, Normalize;
    var needle, g := Normalize(title), Normalize(group);
    MatchingIsFirst(items, kind, needle, g);
    var inGroup := FirstPlace(items, Query(kind, needle, InGroup(g)));
    var grouped := FirstPlace(items, Query(kind, needle, Grouped));
    var any := FirstPlace(items, Query(kind, needle, Any));
    var n := if g != "" && First(items, Query(kind, needle, InGroup(g))).Some? then inGroup
             else if First(items, Query(kind, needle, Grouped)).Some? then grouped else any;
    assert FindItem(items, kind, title, group).Some? ==> FoundAt(items, kind, title, group, n);
  }

  lemma FindGroupExactly(items: seq<Item>, kind: Kind, title: string)
    ensures match FindGroupItem(items, kind, title)
            case Some(item) => exists n: nat | GroupFoundAt(items, kind, title, n) :: item == items[n]
            case None => NoGroup(items, kind, title)
  {
    hide First, Matching, FirstUngrouped, Normalize;
    var needle := Normalize(title);
    MatchingIsFirst(items, kind, needle, needle);
    var n := FirstPlace(items, Query(kind, needle, Ungrouped));
    assert FindGroupItem(items, kind, title).Some? ==> GroupFoundAt(items, kind, title, n);
  }

  lemma FoundIsNamed(items: seq<Item>, kind: Kind, title: string, group: string, n: nat)
    requires FoundAt(items, kind, title, group, n)
    ensures NamedAt(items, kind, title, n)
  {
  }

  /** Which item a reference gives, and that it gives none only when neither items nor groups fit. */
  lemma ReferenceExactly(catalog: Catalog, r: ModelSource)
    ensures match Reference(catalog, r)
            case Some(item) =>
              exists n: nat | LinkedAt(catalog.items, r, n) :: n < |catalog.items| && item == catalog.items[n]
            case None => forall n: nat :: !LinkedAt(catalog.items, r, n)
  {
    hide FindItem, FindGroupItem, FoundAt, NamedAt, GroupFoundAt, NoGroup;
    FindItemExactly(catalog.items, r.kind, r.title, r.group);
    FindGroupExactly(catalog.items, r.kind, r.group);
    FindGroupExactly(catalog.items, r.kind, r.title);
    forall n: nat | FoundAt(catalog.items, r.kind, r.title, r.group, n) ensures NamedAt(catalog.items, r.kind, r.title, n) {
      FoundIsNamed(catalog.items, r.kind, r.title, r.group, n);
    }
    NoGroupNone(catalog.items, r.kind, r.group);
    NoGroupNone(catalog.items, r.kind, r.title);
  }

  lemma NoGroupNone(items: seq<Item>, kind: Kind, title: string)
    ensures NoGroup(items, kind, title) ==> forall n: nat :: !GroupFoundAt(items, kind, title, n)
    ensures forall n: nat | GroupFoundAt(items, kind, title, n) :: n < |items|
    ensures forall n: nat | NamedAt(items, kind, title, n) :: n < |items|
  {
  }

  // ---------------------------------------------------------------------------
  // Requested sources
  // ---------------------------------------------------------------------------

  /** The reply source of an item; fields that are empty are left out. */
  ghost predicate SourceOf(item: Item, s: Source) {
    && s.kind == item.kind && s.title == item.title && s.id == Some(item.id)
    && s.groupLabel == (if item.groupLabel == Some("") then None else item.groupLabel)
    && s.groupId == (if item.groupId == Some("") then None else item.groupId)
  }

  /** The model's reference `raw`, of a known kind and with a title that is not blank, gives the source `s`. */
  ghost predicate Cites(items: seq<Item>, raw: RawSource, s: Source) {
    && raw.kind.Some? && raw.title.Some? && Trim(raw.title.value) != ""
    && exists n: nat | LinkedAt(items, ModelSource(raw.kind.value, Trim(OrBlank(raw.group)), Trim(raw.title.value)), n) ::
         n < |items| && SourceOf(items[n], s)
  }

  /** The source of a name: that of the item found, or the bare name when none has it. */
  ghost predicate Stands(items: seq<Item>, kind: Kind, name: string, s: Source) {
    && Trim(name) != ""
    && (|| (exists n: nat | FoundAt(items, kind, Trim(name), "", n) :: n < |items| && SourceOf(items[n], s))
        || (NoneNamed(items, kind, Trim(name)) && s == Source(kind, Trim(name), None, None, None)))
  }

  function Cited(catalog: Catalog): RawSource -> Option<Source> {
    (raw: RawSource) =>
      var title := Trim(OrBlank(raw.title));
      if raw.kind.None? || title == "" then None
      else
        var item := Reference(catalog, ModelSource(raw.kind.value, Trim(OrBlank(raw.group)), title));
        if item.Some? then Some(ToReplySource(item.value)) else None
  }

  function Loaded(catalog: Catalog): string -> Option<Source> {
    (name: string) => if Trim(name) != "" then Some(Named(catalog, Skill, Trim(name))) else None
  }

  lemma {:induction false} CitedSources(catalog: Catalog, raw: seq<RawSource>)
    ensures ReferenceSources(catalog, ParseModelSources(raw)) == FilterMap(raw, Cited(catalog))
  {
    hide Reference, ToReplySource, Trim;
    if raw != [] {
      CitedSources(catalog, raw[1..]);
      var title := Trim(OrBlank(raw[0].title));
      if raw[0].kind.Some? && title != "" {
        var r := ModelSource(raw[0].kind.value, Trim(OrBlank(raw[0].group)), title);
        ReferenceNext(catalog, r, ParseModelSources(raw[1..]));
      }
    }
  }

  lemma ReferenceNext(catalog: Catalog, r: ModelSource, refs: seq<ModelSource>)
    ensures ReferenceSources(catalog, [r] + refs)
            == (if Reference(catalog, r).Some? then [ToReplySource(Reference(catalog, r).value)] else [])
               + ReferenceSources(catalog, refs)
  {
    assert ([r] + refs)[1..] == refs;
  }

  lemma {:induction false} LoadedSources(catalog: Catalog, names: seq<string>)
    ensures SkillSources(catalog, names) == FilterMap(names, Loaded(catalog))
  {
    hide Named, Trim;
    if names != [] {
      LoadedSources(catalog, names[1..]);
    }
  }

  lemma CitedExactly(catalog: Catalog, raw: RawSource)
    ensures match Cited(catalog)(raw)
            case Some(s) => Cites(catalog.items, raw, s)
            case None => forall s :: !Cites(catalog.items, raw, s)
  {
    hide Reference, LinkedAt, Trim;
    if raw.title.None? { BlankTrims(); }
    var kind := if raw.kind.Some? then raw.kind.value else Context;
    ReferenceExactly(catalog, ModelSource(kind, Trim(OrBlank(raw.group)), Trim(OrBlank(raw.title))));
  }

  lemma BlankTrims()
    ensures Trim("") == ""
  {
    SkipSpacesIs("", 0, 0);
  }

  lemma NamedExactly(catalog: Catalog, kind: Kind, name: string)
    requires Trim(name) != ""
    ensures Stands(catalog.items, kind, name, Named(catalog, kind, Trim(name)))
  {
    hide FindItem, NoneNamed, NamedAt, Trim;
    FindItemExactly(catalog.items, kind, Trim(name), "");
    forall n: nat | FoundAt(catalog.items, kind, Trim(name), "", n) ensures n < |catalog.items| {
      FoundIsNamed(catalog.items, kind, Trim(name), "", n);
      NoGroupNone(catalog.items, kind, Trim(name));
    }
  }

  /** In order, one source for each reference that gives one. */
  ghost predicate CitedPlaces(items: seq<Item>, raw: seq<RawSource>, out: seq<Source>, at: seq<nat>) {
    && |at| == |out| && Increasing(at)
    && (forall i | 0 <= i < |at| :: at[i] < |raw| && Cites(items, raw[at[i]], out[i]))
    && (forall j, s | 0 <= j < |raw| && Cites(items, raw[j], s) :: j in at)
  }

  /** In order, one source for each skill name that is not blank. */
  ghost predicate LoadedPlaces(items: seq<Item>, names: seq<string>, out: seq<Source>, at: seq<nat>) {
    && |at| == |out| && Increasing(at)
    && (forall i | 0 <= i < |at| :: at[i] < |names| && Stands(items, Skill, names[at[i]], out[i]))
    && (forall j | 0 <= j < |names| && Trim(names[j]) != "" :: j in at)
  }

  ghost predicate HandoffGiven(items: seq<Item>, topic: Option<string>, out: seq<Source>) {
    if Trim(OrBlank(topic)) == "" then out == [] else |out| == 1 && Stands(items, Handoff, topic.value, out[0])
  }

  /** Everything a reply points at: resolved references, then loaded skills, then the hand-off. */
  lemma RequestedExactly(catalog: Catalog, raw: seq<RawSource>, names: seq<string>, topic: Option<string>)
    returns (cited: seq<Source>, loaded: seq<Source>, handoff: seq<Source>, at: seq<nat>, skills: seq<nat>)
    ensures Requested(catalog, raw, names, topic) == cited + loaded + handoff
    ensures CitedPlaces(catalog.items, raw, cited, at) && LoadedPlaces(catalog.items, names, loaded, skills)
    ensures HandoffGiven(catalog.items, topic, handoff)
  {
    hide Cites, Stands, Cited, Loaded, Named, Trim, ReferenceSources, SkillSources, ParseModelSources, FilterMap;
    CitedSources(catalog, raw);
    LoadedSources(catalog, names);
    cited, loaded := FilterMap(raw, Cited(catalog)), FilterMap(names, Loaded(catalog));
    handoff := HandoffSources(catalog, topic);
    at := CitedArePlaces(catalog, raw);
    skills := LoadedArePlaces(catalog, names);
    if topic.None? {
      BlankTrims();
    } else if Trim(topic.value) != "" {
      NamedExactly(catalog, Handoff, topic.value);
    }
  }

  lemma CitedArePlaces(catalog: Catalog, raw: seq<RawSource>) returns (at: seq<nat>)
    ensures CitedPlaces(catalog.items, raw, FilterMap(raw, Cited(catalog)), at)
  {
    hide Cites, Cited, FilterMap, Increasing;
    at := FilterMapPlaces(raw, Cited(catalog));
    forall j | 0 <= j < |raw|
      ensures match Cited(catalog)(raw[j])
              case Some(s) => Cites(catalog.items, raw[j], s)
              case None => forall s :: !Cites(catalog.items, raw[j], s)
    {
      CitedExactly(catalog, raw[j]);
    }
  }

  lemma LoadedArePlaces(catalog: Catalog, names: seq<string>) returns (at: seq<nat>)
    ensures LoadedPlaces(catalog.items, names, FilterMap(names, Loaded(catalog)), at)
  {
    hide Stands, Named, Trim, FilterMap, Increasing;
    at := FilterMapPlaces(names, Loaded(catalog));
    forall j | 0 <= j < |names| && Trim(names[j]) != ""
      ensures Stands(catalog.items, Skill, names[j], Named(catalog, Skill, Trim(names[j])))
    {
      NamedExactly(catalog, Skill, names[j]);
    }
  }

  /** The title of a hand-off: none unless called, else that of the topic named by its id, else "Human handoff". */
  lemma HandoffLabelExactly(topicEntryId: Option<string>, catalog: Catalog, called: bool)
    ensures var title := ResolveHandoffTopicLabel(topicEntryId, catalog, called);
            && (!called ==> title == None)
            && (called && !HasTopic(topicEntryId, catalog) ==> title == Some("Human handoff"))
            && (called && HasTopic(topicEntryId, catalog) ==>
                  title == Some(Trim(catalog.handoffByEntryId[topicEntryId.value].title)))
  {
  }

  /** The id names a topic of the catalog whose title is not blank. */
  predicate HasTopic(topicEntryId: Option<string>, catalog: Catalog) {
    && topicEntryId.Some? && topicEntryId.value != "" && topicEntryId.value in catalog.handoffByEntryId
    && Trim(catalog.handoffByEntryId[topicEntryId.value].title) != ""
  }

  // ---------------------------------------------------------------------------
  // The catalog
  // ---------------------------------------------------------------------------

  /** The item at `n` has a title, and no earlier item that has one shares its key. */
  ghost predicate FirstOfItsKey(items: seq<Item>, n: nat)
    requires n < |items|
  {
    && Trim(items[n].title) != ""
    && forall m | 0 <= m < n && Trim(items[m].title) != "" :: ItemKey(items[m]) != ItemKey(items[n])
  }

  /** Exactly these items, in order and unchanged but for the trimmed title. */
  ghost predicate UniquePlaces(items: seq<Item>, out: seq<Item>, at: seq<nat>) {
    && |at| == |out| && Increasing(at)
    && (forall i | 0 <= i < |at| ::
          && at[i] < |items| && FirstOfItsKey(items, at[i])
          && out[i] == items[at[i]].(title := Trim(items[at[i]].title)))
    && (forall n | 0 <= n < |items| && FirstOfItsKey(items, n) :: n in at)
  }

  ghost function FirstOfKeys(items: seq<Item>): nat -> bool {
    (n: nat) => n < |items| && FirstOfItsKey(items, n)
  }

  /** The keys of the items before `n` that have a title. */
  ghost predicate SeenBefore(items: seq<Item>, n: nat, seen: set<string>)
    requires n <= |items|
  {
    forall key :: key in seen <==> exists m | 0 <= m < n :: Trim(items[m].title) != "" && ItemKey(items[m]) == key
  }

  lemma SeenNext(items: seq<Item>, n: nat, seen: set<string>)
    requires n < |items| && SeenBefore(items, n, seen)
    ensures FirstOfItsKey(items, n) <==> Trim(items[n].title) != "" && ItemKey(items[n]) !in seen
    ensures SeenBefore(items, n + 1, if Trim(items[n].title) != "" then seen + {ItemKey(items[n])} else seen)
  {
    hide Trim, ItemKey;
  }

  lemma {:induction false} UniquePlaced(items: seq<Item>, n: nat, seen: set<string>)
    requires n <= |items| && SeenBefore(items, n, seen)
    ensures var at, out := Picks(n, |items|, FirstOfKeys(items)), UniqueFrom(items[n..], seen);
            |out| == |at| && forall i | 0 <= i < |at| ::
              at[i] < |items| && out[i] == items[at[i]].(title := Trim(items[at[i]].title))
    decreases |items| - n
  {
    hide Trim, ItemKey, FirstOfItsKey, SeenBefore;
    if n < |items| {
      SeenNext(items, n, seen);
      var seen' := if Trim(items[n].title) != "" then seen + {ItemKey(items[n])} else seen;
      UniquePlaced(items, n + 1, seen');
      UniqueNext(items[n..], seen);
      assert items[n..][1..] == items[n + 1..] && items[n..][0] == items[n];
    }
  }

  lemma UniqueNext(items: seq<Item>, seen: set<string>)
    requires items != []
    ensures var titled := Trim(items[0].title) != "";
            UniqueFrom(items, seen)
            == (if titled && ItemKey(items[0]) !in seen then [items[0].(title := Trim(items[0].title))] else [])
               + UniqueFrom(items[1..], if titled then seen + {ItemKey(items[0])} else seen)
  {
    hide Trim, ItemKey;
    if ItemKey(items[0]) in seen { assert seen + {ItemKey(items[0])} == seen; }
  }

  /** The de-duplicated list is exactly the first titled item of each key. */
  lemma UniqueExactly(items: seq<Item>) returns (at: seq<nat>)
    ensures UniquePlaces(items, UniqueFrom(items, {}), at)
  {
    hide Trim, ItemKey, FirstOfItsKey, UniqueFrom;
    at := Picks(0, |items|, FirstOfKeys(items));
    assert items[0..] == items;
    UniquePlaced(items, 0, {});
    PicksLaws(0, |items|, FirstOfKeys(items));
    forall i | 0 <= i < |at| ensures FirstOfItsKey(items, at[i]) {
      assert FirstOfKeys(items)(at[i]);
    }
    forall n | 0 <= n < |items| && FirstOfItsKey(items, n) ensures n in at {
      assert FirstOfKeys(items)(n);
    }
  }

  /** Where the items of group `g` begin. */
  function Offset(groups: seq<Group>, g: nat): nat
    requires g <= |groups|
  {
    if g == 0 then 0 else Offset(groups, g - 1) + |groups[g - 1].entries| + 1
  }

  lemma {:induction false} EntryItemsAt(kind: Kind, g: Group, entries: seq<GroupEntry>)
    ensures |EntryItems(kind, g, entries)| == |entries|
    ensures forall k | 0 <= k < |entries| ::
              EntryItems(kind, g, entries)[k] == Item(kind, entries[k].text, Some(g.name), entries[k].id, Some(g.id))
  {
    if entries != [] {
      EntryItemsAt(kind, g, entries[1..]);
    }
  }

  /** Group by group, the items of its entries and then the group's own. */
  ghost predicate GroupsLaidOut(kind: Kind, groups: seq<Group>, items: seq<Item>) {
    && |items| == Offset(groups, |groups|)
    && forall g | 0 <= g < |groups| :: GroupLaidOut(kind, groups[g], items, Offset(groups, g))
  }

  ghost predicate GroupLaidOut(kind: Kind, g: Group, items: seq<Item>, from: nat) {
    && from + |g.entries| < |items|
    && (forall k | 0 <= k < |g.entries| ::
          items[from + k] == Item(kind, g.entries[k].text, Some(g.name), g.entries[k].id, Some(g.id)))
    && items[from + |g.entries|] == Item(kind, g.name, None, g.id, Some(g.id))
  }

  lemma {:induction false} GroupItemsLaidOut(kind: Kind, groups: seq<Group>, n: nat)
    requires n <= |groups|
    ensures GroupsLaidOut(kind, groups[..n], GroupItems(kind, groups[..n]))
  {
    hide GroupLaidOut, GroupItems;
    if n == 0 {
      NoGroups(kind);
      assert groups[..0] == [];
    } else {
      var before, g := groups[..n - 1], groups[n - 1];
      GroupItemsLaidOut(kind, groups, n - 1);
      assert groups[..n] == before + [g];
      GroupItemsAppend(kind, before, g);
      GroupItemsOne(kind, g);
      GroupsNext(kind, before, g, GroupItems(kind, before));
    }
  }

  lemma NoGroups(kind: Kind)
    ensures GroupItems(kind, []) == []
  {
  }

  lemma {:induction false} OffsetPrefix(groups: seq<Group>, g: Group, n: nat)
    requires n <= |groups|
    ensures Offset(groups + [g], n) == Offset(groups, n)
  {
    if n > 0 { OffsetPrefix(groups, g, n - 1); }
  }

  lemma OffsetNext(groups: seq<Group>, g: Group)
    ensures Offset(groups + [g], |groups|) == Offset(groups, |groups|)
    ensures Offset(groups + [g], |groups| + 1) == Offset(groups, |groups|) + |g.entries| + 1
    ensures forall n | 0 <= n < |groups| :: Offset(groups + [g], n) == Offset(groups, n)
  {
    forall n | 0 <= n <= |groups| ensures Offset(groups + [g], n) == Offset(groups, n) {
      OffsetPrefix(groups, g, n);
    }
    assert (groups + [g])[|groups|] == g;
  }

  lemma GroupsNext(kind: Kind, groups: seq<Group>, g: Group, items: seq<Item>)
    requires GroupsLaidOut(kind, groups, items)
    ensures var own := EntryItems(kind, g, g.entries) + [Item(kind, g.name, None, g.id, Some(g.id))];
            GroupsLaidOut(kind, groups + [g], items + own)
  {
    hide GroupLaidOut, EntryItems, Offset;
    var own := EntryItems(kind, g, g.entries) + [Item(kind, g.name, None, g.id, Some(g.id))];
    var groups', items' := groups + [g], items + own;
    OwnLaidOut(kind, g, items);
    OffsetNext(groups, g);
    forall n | 0 <= n < |groups| ensures GroupLaidOut(kind, groups[n], items', Offset(groups, n)) {
      StillLaidOut(kind, groups[n], items, own, Offset(groups, n));
    }
    forall n | 0 <= n < |groups'| ensures GroupLaidOut(kind, groups'[n], items', Offset(groups', n)) {
      assert groups'[n] == if n < |groups| then groups[n] else g;
    }
  }

  lemma StillLaidOut(kind: Kind, g: Group, items: seq<Item>, more: seq<Item>, from: nat)
    requires GroupLaidOut(kind, g, items, from)
    ensures GroupLaidOut(kind, g, items + more, from)
  {
  }

  lemma OwnLaidOut(kind: Kind, g: Group, items: seq<Item>)
    ensures var own := EntryItems(kind, g, g.entries) + [Item(kind, g.name, None, g.id, Some(g.id))];
            |own| == |g.entries| + 1 && GroupLaidOut(kind, g, items + own, |items|)
  {
    EntryItemsAt(kind, g, g.entries);
    var own := EntryItems(kind, g, g.entries) + [Item(kind, g.name, None, g.id, Some(g.id))];
    assert forall k | 0 <= k < |own| :: (items + own)[|items| + k] == own[k];
  }

  /** Each skill by its name and then by its key. */
  ghost predicate SkillsLaidOut(skills: seq<SkillSummary>, items: seq<Item>) {
    |items| == 2 * |skills| && forall n | 0 <= n < |skills| :: SkillLaidOut(skills[n], items, 2 * n)
  }

  ghost predicate SkillLaidOut(skill: SkillSummary, items: seq<Item>, from: nat) {
    && from + 1 < |items|
    && items[from] == Item(Skill, skill.name, None, skill.id, None)
    && items[from + 1] == Item(Skill, skill.skillKey, None, skill.id, None)
  }

  lemma LaidOutLater(skill: SkillSummary, items: seq<Item>, from: nat, all: seq<Item>)
    requires SkillLaidOut(skill, items, from) && |all| == |items| + 2 && all[2..] == items
    ensures SkillLaidOut(skill, all, from + 2)
  {
    assert all[2..][from] == all[from + 2] && all[2..][from + 1] == all[from + 3];
  }

  lemma {:induction false} SkillItemsAt(skills: seq<SkillSummary>)
    ensures SkillsLaidOut(skills, SkillItems(skills))
  {
    if skills != [] {
      var all, rest := SkillItems(skills), SkillItems(skills[1..]);
      SkillItemsAt(skills[1..]);
      assert all[2..] == rest;
      forall n | 0 < n < |skills| ensures SkillLaidOut(skills[n], all, 2 * n) {
        assert skills[1..][n - 1] == skills[n];
        LaidOutLater(skills[n], rest, 2 * (n - 1), all);
      }
    }
  }

  /** Topics: the entries whose text is not blank, trimmed, in order. */
  function Topic(): GroupEntry -> Option<GroupEntry> {
    (e: GroupEntry) => if Trim(e.text) == "" then None else Some(GroupEntry(e.id, Trim(e.text)))
  }

  ghost predicate TopicsOf(handoff: seq<Group>, groups: seq<Group>) {
    && |groups| == |handoff|
    && forall n | 0 <= n < |groups| ::
         && groups[n].id == handoff[n].id && groups[n].name == handoff[n].name
         && exists at :: MapsAt(handoff[n].entries, groups[n].entries, Topic(), at)
  }

  lemma {:induction false} TopicsFilter(entries: seq<GroupEntry>)
    ensures Topics(entries) == FilterMap(entries, Topic())
  {
    hide Trim;
    if entries != [] {
      TopicsFilter(entries[1..]);
    }
  }

  lemma {:induction false} TopicGroupsExactly(handoff: seq<Group>)
    ensures TopicsOf(handoff, TopicGroups(handoff))
  {
    hide MapsAt, Topics;
    if handoff != [] {
      TopicGroupsExactly(handoff[1..]);
      TopicsFilter(handoff[0].entries);
      var at := FilterMapPlaces(handoff[0].entries, Topic());
    }
  }

  /** Entry `k` of group `g` is a topic with this id. */
  ghost predicate TopicAt(handoff: seq<Group>, g: nat, k: nat, id: string) {
    && g < |handoff| && k < |handoff[g].entries|
    && handoff[g].entries[k].id == id && Trim(handoff[g].entries[k].text) != ""
  }

  ghost predicate LastTopic(handoff: seq<Group>, g: nat, k: nat, id: string) {
    TopicAt(handoff, g, k, id) && forall g2: nat, k2: nat | TopicAt(handoff, g2, k2, id) :: g2 < g || (g2 == g && k2 <= k)
  }

  /** The table gives for an id the item of the last topic with it, and nothing when no topic has it. */
  ghost predicate Tabled(handoff: seq<Group>, table: map<string, Item>, id: string) {
    && (forall g: nat, k: nat | LastTopic(handoff, g, k, id) ::
          && id in table
          && table[id]
             == Item(Handoff, Trim(handoff[g].entries[k].text), Some(handoff[g].name), id, Some(handoff[g].id)))
    && ((forall g: nat, k: nat :: !TopicAt(handoff, g, k, id)) ==> id !in table)
  }

  /** The same for one group, up to entry `n`. */
  ghost predicate GroupTabled(g: Group, n: nat, table: map<string, Item>, id: string)
    requires n <= |g.entries|
  {
    && (forall k | 0 <= k < n && TopicAt([g], 0, k, id) && (forall m | k < m < n :: !TopicAt([g], 0, m, id)) ::
          id in table && table[id] == Item(Handoff, Trim(g.entries[k].text), Some(g.name), id, Some(g.id)))
    && ((forall k | 0 <= k < n :: !TopicAt([g], 0, k, id)) ==> id !in table)
  }

  lemma GroupTabledNext(g: Group, n: nat, table: map<string, Item>, id: string)
    requires n < |g.entries| && GroupTabled(g, n, table, id)
    ensures var e := g.entries[n];
            GroupTabled(g, n + 1,
                        if Trim(e.text) == "" then table
                        else table[e.id := Item(Handoff, Trim(e.text), Some(g.name), e.id, Some(g.id))], id)
  {
    hide Trim;
    assert [g][0] == g;
    if !TopicAt([g], 0, n, id) {
      forall k | 0 <= k < n && TopicAt([g], 0, k, id) && (forall m | k < m < n + 1 :: !TopicAt([g], 0, m, id))
        ensures id in table && table[id] == Item(Handoff, Trim(g.entries[k].text), Some(g.name), id, Some(g.id))
      {
        assert forall m | k < m < n :: !TopicAt([g], 0, m, id);
      }
    }
  }

  lemma {:induction false} EntryMapTabled(g: Group, g': Group, n: nat, id: string)
    requires n <= |g.entries| && g' == g.(entries := g'.entries)
    ensures GroupTabled(g, n, EntryMap(g', Topics(g.entries[..n])), id)
  {
    hide Trim, EntryMap, Topics;
    if n == 0 {
      NoTopics(g', g.entries[..0]);
    } else {
      hide GroupTabled;
      var table := EntryMap(g', Topics(g.entries[..n - 1]));
      EntryMapTabled(g, g', n - 1, id);
      assert g.entries[..n] == g.entries[..n - 1] + [g.entries[n - 1]];
      TopicStep(g', g.entries[..n - 1], g.entries[n - 1]);
      GroupTabledNext(g, n - 1, table, id);
    }
  }

  /** The table of the groups before `n`. */
  lemma {:induction false} HandoffTabled(handoff: seq<Group>, n: nat, id: string)
    requires n <= |handoff|
    ensures Tabled(handoff[..n], HandoffMap(TopicGroups(handoff[..n])), id)
  {
    hide Trim, Topics, EntryMap, HandoffMap, GroupTabled, Tabled;
    if n == 0 {
      assert handoff[..0] == [];
      NothingTabled(id);
    } else {
      var before, g := handoff[..n - 1], handoff[n - 1];
      var g' := g.(entries := Topics(g.entries));
      HandoffTabled(handoff, n - 1, id);
      assert handoff[..n] == before + [g] && g.entries[..|g.entries|] == g.entries;
      EntryMapTabled(g, g', |g.entries|, id);
      TopicGroupsAppend(before, g);
      HandoffMapNext(TopicGroups(before), g');
      TabledNext(before, g, HandoffMap(TopicGroups(before)), EntryMap(g', g'.entries), id);
    }
  }

  lemma NothingTabled(id: string)
    ensures Tabled([], HandoffMap(TopicGroups([])), id)
  {
  }

  lemma HandoffMapNext(groups: seq<Group>, g: Group)
    ensures HandoffMap(groups + [g]) == HandoffMap(groups) + EntryMap(g, g.entries)
  {
    assert (groups + [g])[..|groups|] == groups;
  }

  /** Topics of the last group win over those of the groups before. */
  lemma TabledNext(before: seq<Group>, g: Group, table: map<string, Item>, own: map<string, Item>, id: string)
    requires Tabled(before, table, id) && GroupTabled(g, |g.entries|, own, id)
    ensures Tabled(before + [g], table + own, id)
  {
    hide Trim;
    var all, last := before + [g], |before|;
    forall k: nat ensures TopicAt(all, last, k, id) <==> TopicAt([g], 0, k, id) {}
    forall n: nat, k: nat | n < last ensures TopicAt(all, n, k, id) <==> TopicAt(before, n, k, id) {}
    forall n: nat, k: nat | LastTopic(all, n, k, id)
      ensures id in table + own
      ensures (table + own)[id] == Item(Handoff, Trim(all[n].entries[k].text), Some(all[n].name), id, Some(all[n].id))
    {
      if n < last {
        assert forall m | 0 <= m < |g.entries| :: !TopicAt(all, last, m, id);
        assert LastTopic(before, n, k, id);
      }
    }
  }

  /**
   * The built catalog: of the context groups, the template groups, the skills and the hand-off
   * groups, laid out in this order, the first titled item of each key; and the table of the topics.
   */
  lemma CatalogExactly(context: seq<Group>, templates: seq<Group>, handoff: seq<Group>, skills: seq<SkillSummary>)
    returns (c: seq<Item>, t: seq<Item>, s: seq<Item>, h: seq<Item>, topics: seq<Group>, at: seq<nat>)
    ensures GroupsLaidOut(Context, context, c) && GroupsLaidOut(Template, templates, t) && SkillsLaidOut(skills, s)
    ensures TopicsOf(handoff, topics) && GroupsLaidOut(Handoff, topics, h)
    ensures var catalog := BuildCatalog(context, templates, handoff, skills);
            UniquePlaces(c + t + s + h, catalog.items, at) && forall id :: Tabled(handoff, catalog.handoffByEntryId, id)
  {
    hide *;
    topics := TopicGroups(handoff);
    c, t := GroupItems(Context, context), GroupItems(Template, templates);
    s, h := SkillItems(skills), GroupItems(Handoff, topics);
    AllGroups(context);
    AllGroups(templates);
    AllGroups(topics);
    AllGroups(handoff);
    GroupItemsLaidOut(Context, context, |context|);
    GroupItemsLaidOut(Template, templates, |templates|);
    GroupItemsLaidOut(Handoff, topics, |topics|);
    SkillItemsAt(skills);
    TopicGroupsExactly(handoff);
    forall id ensures Tabled(handoff, HandoffMap(topics), id) {
      HandoffTabled(handoff, |handoff|, id);
    }
    at := UniqueExactly(c + t + s + h);
    CatalogIs(context, templates, handoff, skills);
  }

  lemma AllGroups(groups: seq<Group>)
    ensures groups[..|groups|] == groups
  {
  }

  lemma CatalogIs(context: seq<Group>, templates: seq<Group>, handoff: seq<Group>, skills: seq<SkillSummary>)
    ensures var topics := TopicGroups(handoff);
            BuildCatalog(context, templates, handoff, skills)
            == Catalog(UniqueFrom(GroupItems(Context, context) + GroupItems(Template, templates) + SkillItems(skills)
                                  + GroupItems(Handoff, topics), {}), HandoffMap(topics))
  {
  }
}
