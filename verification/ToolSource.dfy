/** Removal of legacy exports from stored tool source (backend/src/lib/custom-tool-source.ts). */
module ToolSource {
  import opened JsString
  import opened Options
  import opened SourceScanner
  import Sequences

  // ---------------------------------------------------------------------------
  // Stripping the legacy exports
  // ---------------------------------------------------------------------------

  const LEGACY_EXPORT_NAMES: seq<string> := ["description", "requiredEnv", "inputSchema"]

  function Marker(name: string): string {
    "export const " + name
  }

  /** What one step makes of a source: everything but the first declaration with this marker. */
  function Without(source: string, marker: string): string {
    var idx := IndexOf(source, marker, 0);
    if idx == -1 then source
    else
      var eq := IndexOf(source, "=", idx + |marker|);
      if eq == -1 then source
      else TrimStart(source[..idx] + source[Scan(source, eq + 1, 0, Code)..])
  }

  function WithoutAll(source: string, names: seq<string>): string {
    if names == [] then source else WithoutAll(Without(source, Marker(names[0])), names[1..])
  }

  /** The end of the statement at `i`: past its semicolon, or the end of a text that never ends it. */
  ghost predicate StatementEnd(s: string, i: nat, end: nat) {
    && (forall ts | EndsAfter(s, i, 0, ts) :: end == i + |ShownAll(ts)| + 1)
    && ((forall ts :: !EndsAfter(s, i, 0, ts)) ==> end == |s|)
  }

  /** From `eq` on the statement goes, and its text before from `idx` on. */
  ghost predicate CutFrom(source: string, idx: nat, eq: nat, stripped: string) {
    exists end | 0 <= end <= |source| && StatementEnd(source, eq + 1, end) ::
      idx <= |source| && stripped == TrimStart(source[..idx] + source[end..])
  }

  /**
   * One step, told from the text: nothing changes without the marker or without a `=` after it;
   * otherwise all goes from the first marker to the end of the statement after the first such `=`.
   */
  ghost predicate Stripped(source: string, marker: string, stripped: string) {
    && (NoneFrom(source, marker, 0) ==> stripped == source)
    && (forall idx: nat | FirstAt(source, marker, 0, idx) && NoneFrom(source, "=", idx + |marker|) ::
          stripped == source)
    && (forall idx: nat, eq: nat | FirstAt(source, marker, 0, idx) && FirstAt(source, "=", idx + |marker|, eq) ::
          CutFrom(source, idx, eq, stripped))
  }

  lemma WithoutExactly(source: string, marker: string)
    ensures Stripped(source, marker, Without(source, marker))
  {
    hide Scan, StatementEnd, Occurs, TrimStart, IndexOf;
    var idx := IndexOf(source, marker, 0);
    IndexOfExactly(source, marker, 0);
    if idx >= 0 {
      FirstIsOne(source, marker, 0);
      FirstIsOne(source, "=", idx + |marker|);
      var eq := IndexOf(source, "=", idx + |marker|);
      IndexOfExactly(source, "=", idx + |marker|);
      if eq >= 0 {
        ScanIsEnd(source, eq + 1);
        assert CutFrom(source, idx, eq, Without(source, marker));
      }
    }
  }

  lemma FirstIsOne(s: string, pattern: string, from: nat)
    ensures forall i: nat, j: nat | FirstAt(s, pattern, from, i) && FirstAt(s, pattern, from, j) :: i == j
    ensures forall i: nat | FirstAt(s, pattern, from, i) :: !NoneFrom(s, pattern, from)
  {
  }

  lemma ScanIsEnd(s: string, i: nat)
    ensures StatementEnd(s, i, Scan(s, i, 0, Code))
  {
    ScanExactly(s, i);
  }

  method StripMarked(source: string, marker: string) returns (stripped: string)
    ensures stripped == Without(source, marker) && Stripped(source, marker, stripped)
  {
    hide Scan, IndexOf, TrimStart, Stripped, EndsAfter, Occurs;
    WithoutExactly(source, marker);
    var idx := IndexOf(source, marker, 0);
    if idx == -1 { return source; }
    var eq := IndexOf(source, "=", idx + |marker|);
    if eq == -1 { return source; }
    var end := ScanExpressionEnd(source, eq + 1);
    stripped := TrimStart(source[..idx] + source[end..]);
  }

  method StripLegacyExport(source: string, constName: string) returns (stripped: string)
    ensures stripped == Without(source, Marker(constName))
    ensures Stripped(source, "export const " + constName, stripped)
  {
    stripped := StripMarked(source, Marker(constName));
  }

  /** The three steps one after the other. */
  ghost predicate StrippedOfAll(source: string, stripped: string) {
    exists s1, s2, s3 ::
      && Stripped(source, "export const description", s1)
      && Stripped(s1, "export const requiredEnv", s2)
      && Stripped(s2, "export const inputSchema", s3)
      && stripped == Trim(s3)
  }

  lemma StripsAll(source: string)
    ensures StrippedOfAll(source, Trim(WithoutAll(source, LEGACY_EXPORT_NAMES)))
  {
    hide Stripped, Without, Trim;
    WithoutAllThree(source);
    var s1 := Without(source, Marker("description"));
    var s2 := Without(s1, Marker("requiredEnv"));
    WithoutExactly(source, Marker("description"));
    WithoutExactly(s1, Marker("requiredEnv"));
    WithoutExactly(s2, Marker("inputSchema"));
    assert Marker("description") == "export const description";
    assert Marker("requiredEnv") == "export const requiredEnv";
    assert Marker("inputSchema") == "export const inputSchema";
  }

  method StripLegacyToolExports(source: string) returns (stripped: string)
    ensures stripped == Trim(WithoutAll(source, LEGACY_EXPORT_NAMES))
    ensures StrippedOfAll(source, stripped)
  {
    hide StrippedOfAll, Without, Trim;
    StripsAll(source);
    var next := source;
    for n := 0 to |LEGACY_EXPORT_NAMES|
      invariant WithoutAll(next, LEGACY_EXPORT_NAMES[n..]) == WithoutAll(source, LEGACY_EXPORT_NAMES)
    {
      assert LEGACY_EXPORT_NAMES[n..][1..] == LEGACY_EXPORT_NAMES[n + 1..];
      next := StripLegacyExport(next, LEGACY_EXPORT_NAMES[n]);
    }
    stripped := Trim(next);
  }

  /** Text after which a statement never ends: a marker, its annotation, `=`, and tokens up to the end. */
  ghost predicate Unended(s: string, i: nat, marker: string, annotation: string, ts: seq<Token>, tail: Tail) {
    && FirstAt(s, marker, 0, i) && '=' !in annotation
    && Occurs(s, annotation, i + |marker|) && Occurs(s, "=", i + |marker| + |annotation|)
    && RunsOut(s, i + |marker| + |annotation| + 1, ts, tail)
  }

  /** A statement that never ends takes the rest of the text with it. */
  lemma StripUnended(s: string, i: nat, marker: string, annotation: string, ts: seq<Token>, tail: Tail)
    requires Unended(s, i, marker, annotation, ts, tail)
    ensures Without(s, marker) == TrimStart(s[..i])
  {
    hide Occurs, Scan, IndexOf, Without, RunsOut;
    var eq := i + |marker| + |annotation|;
    ScanRunsOut(s, eq + 1, ts, tail);
    IndexOfFirst(s, marker, 0, i);
    EqualsFound(s, i + |marker|, annotation);
    WithoutIs(s, marker, i, eq, |s|);
    assert s[..i] + s[|s|..] == s[..i];
  }

  /**
   * A text with one legacy export, which no semicolon outside brackets ends: all that is left is
   * the trimmed text before it.
   */
  lemma StripAllUnended(s: string, i: nat, name: string, annotation: string, ts: seq<Token>, tail: Tail)
    requires name in LEGACY_EXPORT_NAMES && Unended(s, i, Marker(name), annotation, ts, tail)
    requires forall other <- LEGACY_EXPORT_NAMES, p: nat | Occurs(s, Marker(other), p) :: other == name && p == i
    ensures Trim(WithoutAll(s, LEGACY_EXPORT_NAMES)) == Trim(s[..i])
  {
    hide Occurs, Without, TrimStart, TrimEnd;
    var t := TrimStart(s[..i]);
    assert Without(s, Marker(name)) == t by { StripUnended(s, i, Marker(name), annotation, ts, tail); }
    forall other <- LEGACY_EXPORT_NAMES | other != name ensures Without(s, Marker(other)) == s {
      NoMarker(s, other);
    }
    forall other <- LEGACY_EXPORT_NAMES ensures Without(t, Marker(other)) == t {
      CutHasNoMarker(s, i, other);
      NoMarker(t, other);
    }
    WithoutAllThree(s);
    TrimStartAgain(s[..i]);
  }

  lemma NoMarker(s: string, name: string)
    requires forall p: nat :: !Occurs(s, Marker(name), p)
    ensures Without(s, Marker(name)) == s
  {
    IndexOfNone(s, Marker(name), 0);
  }

  lemma CutHasNoMarker(s: string, i: nat, name: string)
    requires i <= |s| && forall p: nat | Occurs(s, Marker(name), p) :: p == i
    ensures forall p: nat :: !Occurs(TrimStart(s[..i]), Marker(name), p)
  {
    var n := SkipSpaces(s[..i], 0);
    forall p: nat | Occurs(TrimStart(s[..i]), Marker(name), p) ensures false {
      forall k | 0 <= k < |Marker(name)| ensures s[p + n + k] == Marker(name)[k] {
        assert TrimStart(s[..i])[p + k] == Marker(name)[k];
      }
      assert Occurs(s, Marker(name), p + n);
    }
  }

  /** A legacy export, after its own white space: marker, annotation, `=`, expression, semicolon. */
  datatype Decl = Decl(gap: string, name: string, annotation: string, value: Expr)

  ghost predicate ValidDecl(d: Decl) {
    Blank(d.gap) && d.name in LEGACY_EXPORT_NAMES && '=' !in d.annotation && Valid(d.value, false)
  }

  function PrintExport(d: Decl): string {
    Statement(Marker(d.name), d.annotation, d.value)
  }

  function Statement(marker: string, annotation: string, value: Expr): string {
    marker + annotation + "=" + (Print(value) + ";")
  }

  function PrintDecls(ds: seq<Decl>): string {
    if ds == [] then [] else ds[0].gap + PrintExport(ds[0]) + PrintDecls(ds[1..])
  }

  /** Any selection and order of legacy exports: no name twice. */
  ghost predicate Selection(ds: seq<Decl>) {
    && (forall i | 0 <= i < |ds| :: ValidDecl(ds[i]))
    && (forall i, j | 0 <= i < j < |ds| :: ds[i].name != ds[j].name)
  }

  ghost function Names(ds: seq<Decl>): set<string> {
    set d | d in ds :: d.name
  }

  /** Each marker occurs at most once, and only if an export of its name is there to hold it. */
  ghost predicate NoMarkerElsewhere(source: string, names: set<string>) {
    forall name <- LEGACY_EXPORT_NAMES ::
      && (forall p: nat, q: nat | Occurs(source, Marker(name), p) && Occurs(source, Marker(name), q) :: p == q)
      && (name !in names ==> forall p: nat :: !Occurs(source, Marker(name), p))
  }

  lemma {:induction false} PrintDeclsAppend(a: seq<Decl>, b: seq<Decl>)
    ensures PrintDecls(a + b) == PrintDecls(a) + PrintDecls(b)
  {
    if a == [] {
      assert a + b == b;
    } else {
      assert (a + b)[1..] == a[1..] + b;
      PrintDeclsAppend(a[1..], b);
    }
  }

  lemma {:induction false} PrintDeclsEnd(ds: seq<Decl>)
    requires ds != []
    ensures PrintDecls(ds) != [] && PrintDecls(ds)[|PrintDecls(ds)| - 1] == ';'
  {
    if |ds| == 1 {
      assert PrintDecls(ds[1..]) == [];
    } else {
      PrintDeclsEnd(ds[1..]);
    }
  }

  /** The pieces of a statement, found where they stand in a longer source. */
  lemma StatementPieces(s: string, i: nat, marker: string, annotation: string, value: Expr)
    requires Occurs(s, Statement(marker, annotation, value), i)
    ensures var eq := i + |marker| + |annotation|;
            && Occurs(s, marker, i) && Occurs(s, annotation, i + |marker|) && Occurs(s, "=", eq)
            && Occurs(s, Print(value) + ";", eq + 1)
            && i + |Statement(marker, annotation, value)| == eq + 1 + |Print(value)| + 1
  {
    OccursSplit(s, marker + annotation + "=", Print(value) + ";", i);
    OccursSplit(s, marker + annotation, "=", i);
    OccursSplit(s, marker, annotation, i);
  }

  lemma EqualsFound(s: string, at: nat, annotation: string)
    requires '=' !in annotation && Occurs(s, annotation, at) && Occurs(s, "=", at + |annotation|)
    ensures IndexOf(s, "=", at) == at + |annotation|
  {
    forall p: nat | at <= p < at + |annotation| ensures !Occurs(s, "=", p) {
      OccursOne(s, '=', p);
      assert s[at + (p - at)] == annotation[p - at];
    }
    IndexOfFirst(s, "=", at, at + |annotation|);
  }

  /** With its marker first found at `i`, one step removes exactly the statement. */
  lemma StripOne(s: string, i: nat, marker: string, annotation: string, value: Expr, eq: nat)
    requires '=' !in annotation && Valid(value, false) && eq == i + |marker| + |annotation|
    requires Occurs(s, marker, i) && Occurs(s, annotation, i + |marker|) && Occurs(s, "=", eq)
    requires Occurs(s, Print(value) + ";", eq + 1)
    requires forall p: nat | p < i :: !Occurs(s, marker, p)
    ensures Without(s, marker) == TrimStart(s[..i] + s[eq + 2 + |Print(value)|..])
  {
    hide Occurs, Scan, Stop, IndexOf, Without, Print, Valid;
    IndexOfFirst(s, marker, 0, i);
    EqualsFound(s, i + |marker|, annotation);
    PrintedStops(s, eq + 1, value);
    WithoutIs(s, marker, i, eq, eq + 2 + |Print(value)|);
  }

  lemma WithoutIs(s: string, marker: string, idx: nat, eq: nat, end: nat)
    requires IndexOf(s, marker, 0) == idx && IndexOf(s, "=", idx + |marker|) == eq
    requires Scan(s, eq + 1, 0, Code) == end
    ensures idx <= |s| && end <= |s| && Without(s, marker) == TrimStart(s[..idx] + s[end..])
  {
    hide Scan, IndexOf, TrimStart, SkipSpaces;
  }

  lemma MarkerChars(name: string)
    requires name in LEGACY_EXPORT_NAMES
    ensures Marker(name)[0] == 'e' && ';' !in Marker(name)
  {
    assert name == "description" || name == "requiredEnv" || name == "inputSchema";
  }

  lemma CharInside(s: string, pattern: string, p: nat, q: nat)
    requires Occurs(s, pattern, p) && p <= q < p + |pattern|
    ensures s[q] in pattern
  {
    assert s[p + (q - p)] == pattern[q - p];
  }

  /** No marker can straddle the end of some exports and the white space after them. */
  lemma NoStraddle(ds: seq<Decl>, gap: string, after: string, name: string, p: nat)
    requires Blank(gap) && name in LEGACY_EXPORT_NAMES
    requires Occurs(PrintDecls(ds) + gap + after, Marker(name), p)
    ensures p + |Marker(name)| <= |PrintDecls(ds) + gap| || |PrintDecls(ds) + gap| <= p
  {
    var t, marker, cut := PrintDecls(ds) + gap + after, Marker(name), |PrintDecls(ds) + gap|;
    MarkerChars(name);
    if p < cut < p + |marker| {
      assert t[p + 0] == marker[0] == 'e';
      if p < |PrintDecls(ds)| {
        PrintDeclsEnd(ds);
        CharInside(t, marker, p, |PrintDecls(ds)| - 1);
      }
    }
  }

  /** Where a marker of the shortened text stood in the full one. */
  lemma CutOccurs(ds: seq<Decl>, gap: string, cut: string, after: string, name: string, p: nat)
    requires Blank(gap) && name in LEGACY_EXPORT_NAMES
    requires Occurs(PrintDecls(ds) + gap + after, Marker(name), p)
    ensures var before := PrintDecls(ds) + gap;
            Occurs(before + cut + after, Marker(name), if p < |before| then p else p + |cut|)
  {
    hide PrintDecls, Marker;
    NoStraddle(ds, gap, after, name, p);
    var before, marker := PrintDecls(ds) + gap, Marker(name);
    var at := if p < |before| then p else p + |cut|;
    forall k | 0 <= k < |marker| ensures (before + cut + after)[at + k] == marker[k] {
      assert (before + after)[p + k] == marker[k];
    }
  }

  /** Cutting an export out leaves its own marker nowhere and moves no other one. */
  lemma CutMarkers(ds: seq<Decl>, d: Decl, after: string, names: set<string>)
    requires ValidDecl(d)
    requires NoMarkerElsewhere(PrintDecls(ds) + d.gap + PrintExport(d) + after, names)
    ensures NoMarkerElsewhere(PrintDecls(ds) + d.gap + after, names - {d.name})
  {
    hide Print, Valid, Occurs, PrintDecls, Marker;
    var before, cut := PrintDecls(ds) + d.gap, PrintExport(d);
    var s, t := before + cut + after, before + after;
    forall name, p: nat | name in LEGACY_EXPORT_NAMES && Occurs(t, Marker(name), p)
      ensures Occurs(s, Marker(name), if p < |before| then p else p + |cut|)
    {
      CutOccurs(ds, d.gap, cut, after, name, p);
    }
    OccursInMiddle(before, cut, after);
    StatementPieces(s, |before|, Marker(d.name), d.annotation, d.value);
    assert |cut| > 0;
  }

  lemma TrimMarkers(t: string, names: set<string>)
    requires NoMarkerElsewhere(t, names)
    ensures NoMarkerElsewhere(TrimStart(t), names)
  {
    var n := SkipSpaces(t, 0);
    forall name, p: nat | name in LEGACY_EXPORT_NAMES && Occurs(TrimStart(t), Marker(name), p)
      ensures Occurs(t, Marker(name), p + n)
    {
      forall k | 0 <= k < |Marker(name)| ensures t[p + n + k] == Marker(name)[k] {
        assert TrimStart(t)[p + k] == Marker(name)[k];
      }
    }
  }

  /** Changing the white space before the first export changes nothing else. */
  lemma Regap(ds: seq<Decl>, gap: string) returns (ds': seq<Decl>)
    requires ds != [] && Selection(ds) && Blank(gap)
    ensures ds' == [ds[0].(gap := gap)] + ds[1..]
    ensures Selection(ds') && Names(ds') == Names(ds) && SameOrder(ds', ds)
    ensures PrintDecls(ds') == gap + PrintExport(ds[0]) + PrintDecls(ds[1..])
  {
    ds' := [ds[0].(gap := gap)] + ds[1..];
    assert forall i | 1 <= i < |ds| :: ds'[i] == ds[i];
    SameNames(ds', ds);
  }

  ghost predicate SameOrder(a: seq<Decl>, b: seq<Decl>) {
    |a| == |b| && forall i | 0 <= i < |a| :: a[i].name == b[i].name
  }

  lemma SameNames(a: seq<Decl>, b: seq<Decl>)
    requires SameOrder(a, b)
    ensures Names(a) == Names(b)
  {
    forall i | 0 <= i < |a| ensures a[i].name in Names(b) && b[i].name in Names(a) {
      assert a[i] in a && b[i] in b;
    }
  }

  /** White space left behind by a cut joins the next export, or the body. */
  lemma Merge(gap: string, ds: seq<Decl>, body: string) returns (ds': seq<Decl>, body': string)
    requires Blank(gap) && Selection(ds)
    ensures gap + (PrintDecls(ds) + body) == PrintDecls(ds') + body'
    ensures Selection(ds') && SameOrder(ds', ds) && Trim(body') == Trim(body)
  {
    hide TrimStart, TrimEnd, PrintExport;
    if ds == [] {
      ds', body' := [], gap + body;
      TrimStartSkips(gap, body);
    } else {
      ds' := Regap(ds, gap + ds[0].gap);
      body' := body;
      assert PrintDecls(ds') == gap + PrintDecls(ds);
    }
  }

  lemma ExportStarts(d: Decl)
    ensures PrintExport(d) != [] && !IsSpace(PrintExport(d)[0])
  {
  }

  lemma TrimLayout(ds: seq<Decl>, body: string) returns (ds': seq<Decl>, body': string)
    requires Selection(ds)
    ensures TrimStart(PrintDecls(ds) + body) == PrintDecls(ds') + body'
    ensures Selection(ds') && Names(ds') == Names(ds) && Trim(body') == Trim(body)
  {
    hide PrintExport, TrimStart, TrimEnd;
    if ds == [] {
      ds', body' := [], TrimStart(body);
      assert PrintDecls(ds) + body == body;
      TrimStartAgain(body);
    } else {
      ds' := Regap(ds, []);
      body' := body;
      var text := PrintDecls(ds') + body;
      assert PrintDecls(ds) + body == ds[0].gap + text;
      TrimStartSkips(ds[0].gap, text);
      ExportStarts(ds[0]);
      TrimStartKeeps(text);
    }
  }

  /** What is left around the export `j` when it is cut out. */
  function Around(ds: seq<Decl>, body: string, j: nat): string
    requires j < |ds|
  {
    PrintDecls(ds[..j]) + ds[j].gap + (PrintDecls(ds[j + 1..]) + body)
  }

  lemma StripCut(ds: seq<Decl>, body: string, j: nat)
    requires Selection(ds) && j < |ds|
    requires NoMarkerElsewhere(PrintDecls(ds) + body, Names(ds))
    ensures Without(PrintDecls(ds) + body, Marker(ds[j].name)) == TrimStart(Around(ds, body, j))
    ensures NoMarkerElsewhere(TrimStart(Around(ds, body, j)), Names(ds) - {ds[j].name})
  {
    hide PrintDecls, Without, TrimStart, PrintExport, NoMarkerElsewhere, Names, Marker;
    var after := PrintDecls(ds[j + 1..]) + body;
    LayoutSplit(ds, body, j);
    CutMarkers(ds[..j], ds[j], after, Names(ds));
    CutOne(ds[..j], ds[j], after, Names(ds));
    TrimMarkers(PrintDecls(ds[..j]) + ds[j].gap + after, Names(ds) - {ds[j].name});
  }

  lemma MergeAround(ds: seq<Decl>, body: string, j: nat) returns (ds': seq<Decl>, body': string)
    requires Selection(ds) && j < |ds|
    ensures Around(ds, body, j) == PrintDecls(ds') + body'
    ensures Selection(ds') && Names(ds') == Names(ds) - {ds[j].name} && Trim(body') == Trim(body)
  {
    hide PrintDecls, Names, Trim;
    var head, tail := ds[..j], ds[j + 1..];
    var tail';
    tail', body' := Merge(ds[j].gap, tail, body);
    PrintDeclsAppend(head, tail');
    Sequences.Assoc(PrintDecls(head), ds[j].gap, PrintDecls(tail) + body);
    Sequences.Assoc(PrintDecls(head), PrintDecls(tail'), body');
    NamesWithout(ds, j, tail');
    ds' := head + tail';
  }

  /** One step over a layout: its export goes, the others and the trimmed body stay. */
  lemma StripStep(ds: seq<Decl>, body: string, j: nat) returns (ds': seq<Decl>, body': string)
    requires Selection(ds) && j < |ds|
    requires NoMarkerElsewhere(PrintDecls(ds) + body, Names(ds))
    ensures Without(PrintDecls(ds) + body, Marker(ds[j].name)) == PrintDecls(ds') + body'
    ensures Selection(ds') && Names(ds') == Names(ds) - {ds[j].name} && Trim(body') == Trim(body)
    ensures NoMarkerElsewhere(PrintDecls(ds') + body', Names(ds'))
  {
    StripCut(ds, body, j);
    var ds0, body0 := MergeAround(ds, body, j);
    ds', body' := TrimLayout(ds0, body0);
  }

  lemma LayoutSplit(ds: seq<Decl>, body: string, j: nat)
    requires j < |ds|
    ensures PrintDecls(ds) + body
            == PrintDecls(ds[..j]) + ds[j].gap + PrintExport(ds[j]) + (PrintDecls(ds[j + 1..]) + body)
  {
    var d, tail := ds[j], PrintDecls(ds[j + 1..]);
    assert ds == ds[..j] + ds[j..];
    PrintDeclsAppend(ds[..j], ds[j..]);
    assert ds[j..][1..] == ds[j + 1..];
    Sequences.Assoc(PrintDecls(ds[..j]), d.gap + PrintExport(d) + tail, body);
    Sequences.Assoc(d.gap + PrintExport(d), tail, body);
    Sequences.Assoc(PrintDecls(ds[..j]), d.gap + PrintExport(d), tail + body);
    Sequences.Assoc(PrintDecls(ds[..j]), d.gap, PrintExport(d));
  }

  lemma CutOne(ds: seq<Decl>, d: Decl, after: string, names: set<string>)
    requires ValidDecl(d)
    requires NoMarkerElsewhere(PrintDecls(ds) + d.gap + PrintExport(d) + after, names)
    ensures Without(PrintDecls(ds) + d.gap + PrintExport(d) + after, Marker(d.name))
            == TrimStart(PrintDecls(ds) + d.gap + after)
  {
    hide Occurs, Without, TrimStart, Print, Valid;
    var before := PrintDecls(ds) + d.gap;
    var s := before + PrintExport(d) + after;
    OccursInMiddle(before, PrintExport(d), after);
    var marker := Marker(d.name);
    StatementPieces(s, |before|, marker, d.annotation, d.value);
    StripOne(s, |before|, marker, d.annotation, d.value, |before| + |marker| + |d.annotation|);
    assert s[..|before|] == before;
    assert s[|before| + |PrintExport(d)|..] == after;
  }

  lemma NamesWithout(ds: seq<Decl>, j: nat, tail': seq<Decl>)
    requires Selection(ds) && j < |ds| && Selection(tail') && SameOrder(tail', ds[j + 1..])
    ensures Selection(ds[..j] + tail') && Names(ds[..j] + tail') == Names(ds) - {ds[j].name}
  {
    var all, former := ds[..j] + tail', ds[..j] + ds[j + 1..];
    assert SameOrder(all, former) by {
      forall i | 0 <= i < |all| ensures all[i].name == former[i].name {
        if i >= j { assert all[i] == tail'[i - j] && former[i] == ds[j + 1..][i - j]; }
      }
    }
    SameNames(all, former);
    NamesOfCut(ds, j);
    forall i, k | 0 <= i < k < |all| ensures all[i].name != all[k].name {
      assert former[i] == ds[if i < j then i else i + 1] && former[k] == ds[if k < j then k else k + 1];
    }
  }

  lemma NamesOfCut(ds: seq<Decl>, j: nat)
    requires Selection(ds) && j < |ds|
    ensures Names(ds[..j] + ds[j + 1..]) == Names(ds) - {ds[j].name}
  {
    var cut := ds[..j] + ds[j + 1..];
    forall i | 0 <= i < |ds| && i != j ensures ds[i].name in Names(cut) {
      assert cut[if i < j then i else i - 1] == ds[i];
    }
    forall i | 0 <= i < |cut| ensures cut[i].name in Names(ds) && cut[i].name != ds[j].name {
      assert cut[i] == ds[if i < j then i else i + 1];
    }
  }

  lemma StripName(ds: seq<Decl>, body: string, name: string) returns (ds': seq<Decl>, body': string)
    requires Selection(ds) && name in LEGACY_EXPORT_NAMES
    requires NoMarkerElsewhere(PrintDecls(ds) + body, Names(ds))
    ensures Without(PrintDecls(ds) + body, Marker(name)) == PrintDecls(ds') + body'
    ensures Selection(ds') && Names(ds') == Names(ds) - {name} && Trim(body') == Trim(body)
    ensures NoMarkerElsewhere(PrintDecls(ds') + body', Names(ds'))
  {
    if name in Names(ds) {
      var j :| 0 <= j < |ds| && ds[j].name == name;
      ds', body' := StripStep(ds, body, j);
    } else {
      ds', body' := ds, body;
      assert Names(ds) - {name} == Names(ds);
      IndexOfNone(PrintDecls(ds) + body, Marker(name), 0);
    }
  }

  /**
   * For any selection and order of the legacy exports, each printed from the grammar and ended
   * by a semicolon, before a body, with no marker anywhere else: what is left is the trimmed body.
   */
  lemma {:induction false} StripReturnsBody(ds: seq<Decl>, body: string)
    requires Selection(ds) && NoMarkerElsewhere(PrintDecls(ds) + body, Names(ds))
    ensures Trim(WithoutAll(PrintDecls(ds) + body, LEGACY_EXPORT_NAMES)) == Trim(body)
  {
    hide Without, Trim, PrintDecls, NoMarkerElsewhere;
    WithoutAllThree(PrintDecls(ds) + body);
    var ds1, body1 := StripName(ds, body, "description");
    var ds2, body2 := StripName(ds1, body1, "requiredEnv");
    var ds3, body3 := StripName(ds2, body2, "inputSchema");
    NamesAreLegacy(ds);
    assert Names(ds3) == {};
    NoNames(ds3);
    NoDecls(body3);
  }

  lemma NoNames(ds: seq<Decl>)
    ensures ds != [] ==> Names(ds) != {}
  {
    if ds != [] { assert ds[0].name in Names(ds); }
  }

  lemma NoDecls(body: string)
    ensures PrintDecls([]) + body == body
  {
  }

  lemma NamesAreLegacy(ds: seq<Decl>)
    requires Selection(ds)
    ensures Names(ds) <= {"description", "requiredEnv", "inputSchema"}
  {
    forall d <- ds ensures d.name in {"description", "requiredEnv", "inputSchema"} {
      var i :| 0 <= i < |ds| && ds[i] == d;
      assert ValidDecl(ds[i]);
    }
  }

  lemma WithoutAllThree(s: string)
    ensures WithoutAll(s, LEGACY_EXPORT_NAMES)
            == Without(Without(Without(s, Marker("description")), Marker("requiredEnv")), Marker("inputSchema"))
  {
    var names := LEGACY_EXPORT_NAMES;
    assert names[1..][0] == names[1] && names[1..][1..] == names[2..];
    assert names[2..][0] == names[2] && names[2..][1..] == [];
    var s1 := Without(s, Marker(names[0]));
    assert WithoutAll(s, names) == WithoutAll(s1, names[1..]);
    assert WithoutAll(s1, names[1..]) == WithoutAll(Without(s1, Marker(names[1])), names[2..]);
  }
}
