/**
 * The scanner of stored tool source (backend/src/lib/custom-tool-source.ts:3-78).
 *
 * `Scan` is the source's character loop. It is proved against two grammars, each with a printer:
 * flat token lists, which say for every text where the loop ends, and expressions with nested
 * bracket groups, which say where it ends while brackets never close more than was opened.
 */
module SourceScanner {
  import opened JsString
  import opened Options
  import Sequences

  // ---------------------------------------------------------------------------
  // The scanner
  // ---------------------------------------------------------------------------

  /** At most one of the source's three string flags is on; `Quoted(q)` names it by its quote. */
  datatype Mode = Code | Quoted(quote: char)

  predicate IsQuote(c: char) { c == '\'' || c == '"' || c == '`' }

  predicate IsOpen(c: char) { c == '{' || c == '(' || c == '[' }

  predicate IsClose(c: char) { c == '}' || c == ')' || c == ']' }

  predicate StartsComment(s: string, i: nat) {
    i + 1 < |s| && s[i] == '/' && s[i + 1] == '/'
  }

  function LineEnd(s: string, i: nat): (r: nat)
    requires i <= |s|
    ensures i <= r <= |s|
    ensures forall k | i <= k < r :: s[k] != '\n'
    ensures r == |s| || s[r] == '\n'
    decreases |s| - i
  {
    if i < |s| && s[i] != '\n' then LineEnd(s, i + 1) else i
  }

  /** Where the source's loop returns when it stands at `i` with this depth and mode. */
  function Scan(s: string, i: nat, depth: int, mode: Mode): (end: nat)
    ensures end <= |s|
    ensures i <= |s| ==> i <= end
    ensures end < |s| ==> i < end && s[end - 1] == ';'
    decreases |s| - i
  {
    if i >= |s| then |s|
    else if mode.Quoted? then
      if s[i] == '\\' then Scan(s, i + 2, depth, mode)
      else Scan(s, i + 1, depth, if s[i] == mode.quote then Code else mode)
    else if IsQuote(s[i]) then Scan(s, i + 1, depth, Quoted(s[i]))
    else if IsOpen(s[i]) then Scan(s, i + 1, depth + 1, Code)
    else if IsClose(s[i]) then Scan(s, i + 1, depth - 1, Code)
    else if depth == 0 && s[i] == ';' then i + 1
    else if depth == 0 && StartsComment(s, i) then Scan(s, LineEnd(s, i), depth, Code)
    else Scan(s, i + 1, depth, Code)
  }

  // ---------------------------------------------------------------------------
  // Flat tokens: where the scan ends in every text
  // ---------------------------------------------------------------------------

  datatype Piece = Lit(c: char) | Esc(c: char)

  function PrintBody(body: seq<Piece>): string {
    if body == [] then []
    else (match body[0] case Lit(c) => [c] case Esc(c) => ['\\', c]) + PrintBody(body[1..])
  }

  /** The inside of a string: its quote and backslashes are escaped. */
  ghost predicate IsBody(body: seq<Piece>, quote: char) {
    forall p | p in body && p.Lit? :: p.c != quote && p.c != '\\'
  }

  datatype Token = Sign(c: char) | Bracket(c: char) | Text(quote: char, body: seq<Piece>) | Note(text: string)

  function Shown(t: Token): string {
    match t
    case Sign(c) => [c]
    case Bracket(c) => [c]
    case Text(quote, body) => [quote] + PrintBody(body) + [quote]
    case Note(text) => "//" + text + "\n"
  }

  function ShownAll(ts: seq<Token>): string {
    if ts == [] then [] else Shown(ts[0]) + ShownAll(ts[1..])
  }

  function Turn(t: Token): int {
    if !t.Bracket? then 0 else if IsOpen(t.c) then 1 else -1
  }

  /** Open brackets less closing ones; below zero where more are closed than were opened. */
  function Level(depth: int, ts: seq<Token>): int
    decreases ts
  {
    if ts == [] then depth else Level(depth + Turn(ts[0]), ts[1..])
  }

  /**
   * `t` is a token at this depth, before the text `after`. At depth zero alone a semicolon is no
   * plain sign, two slashes start a note, and a note stands.
   */
  ghost predicate Fits(t: Token, depth: int, after: string) {
    match t
    case Sign(c) =>
      && !IsQuote(c) && !IsOpen(c) && !IsClose(c)
      && (depth == 0 ==> c != ';' && (c == '/' ==> after == [] || after[0] != '/'))
    case Bracket(c) => IsOpen(c) || IsClose(c)
    case Text(quote, body) => IsQuote(quote) && IsBody(body, quote)
    case Note(text) => depth == 0 && '\n' !in text
  }

  /** `ts` is a token list from this depth on, when the text `after` follows it. */
  ghost predicate Reads(ts: seq<Token>, depth: int, after: string) {
    ts != [] ==>
      && Fits(ts[0], depth, ShownAll(ts[1..]) + after)
      && Reads(ts[1..], depth + Turn(ts[0]), after)
  }

  /** From `i` on stand these tokens, which lead to depth zero, and then a semicolon. */
  ghost predicate EndsAfter(s: string, i: nat, depth: int, ts: seq<Token>) {
    Reads(ts, depth, ";") && Level(depth, ts) == 0 && Occurs(s, ShownAll(ts) + ";", i)
  }

  lemma {:induction false} ScanBody(s: string, i: nat, depth: int, quote: char, body: seq<Piece>)
    requires Occurs(s, PrintBody(body), i) && IsBody(body, quote)
    ensures Scan(s, i, depth, Quoted(quote)) == Scan(s, i + |PrintBody(body)|, depth, Quoted(quote))
    decreases |body|
  {
    if body != [] {
      var rest := PrintBody(body[1..]);
      assert body[0] in body;
      match body[0]
      case Lit(c) =>
        OccursSplit(s, [c], rest, i);
        OccursOne(s, c, i);
        ScanBody(s, i + 1, depth, quote, body[1..]);
      case Esc(c) =>
        OccursSplit(s, ['\\', c], rest, i);
        assert ['\\', c][0] == '\\';
        ScanBody(s, i + 2, depth, quote, body[1..]);
    }
  }

  lemma ScanText(s: string, i: nat, depth: int, quote: char, body: seq<Piece>)
    requires IsQuote(quote) && Occurs(s, [quote] + PrintBody(body) + [quote], i) && IsBody(body, quote)
    ensures Scan(s, i, depth, Code) == Scan(s, i + 2 + |PrintBody(body)|, depth, Code)
  {
    var b := PrintBody(body);
    OccursSplit(s, [quote] + b, [quote], i);
    OccursSplit(s, [quote], b, i);
    OccursOne(s, quote, i);
    OccursOne(s, quote, i + 1 + |b|);
    ScanBody(s, i + 1, depth, quote, body);
  }

  lemma NoteEnds(s: string, i: nat, text: string)
    requires '\n' !in text && Occurs(s, "//" + text, i)
    requires i + 2 + |text| == |s| || (i + 2 + |text| < |s| && s[i + 2 + |text|] == '\n')
    ensures StartsComment(s, i) && LineEnd(s, i) == i + 2 + |text|
  {
    OccursSplit(s, "//", text, i);
    OccursTwo(s, '/', '/', i);
    var nl := i + 2 + |text|;
    forall k | i <= k < nl ensures s[k] != '\n' {
      if k >= i + 2 { assert s[i + 2 + (k - i - 2)] == text[k - i - 2]; }
    }
  }

  lemma ScanSign(s: string, i: nat, depth: int, c: char, after: string)
    requires Fits(Sign(c), depth, after) && i < |s| && s[i] == c
    requires Occurs(s, after, i + 1) && (after == [] ==> i + 1 == |s|)
    ensures Scan(s, i, depth, Code) == Scan(s, i + 1, depth, Code)
  {
    assert after != [] ==> s[i + 1 + 0] == after[0];
  }

  lemma ScanBracket(s: string, i: nat, depth: int)
    requires i < |s| && (IsOpen(s[i]) || IsClose(s[i]))
    ensures Scan(s, i, depth, Code) == Scan(s, i + 1, depth + Turn(Bracket(s[i])), Code)
  {
  }

  lemma ScanToken(s: string, i: nat, depth: int, t: Token, after: string)
    requires Fits(t, depth, after) && Occurs(s, Shown(t), i)
    requires Occurs(s, after, i + |Shown(t)|) && (after == [] ==> i + |Shown(t)| == |s|)
    ensures Scan(s, i, depth, Code) == Scan(s, i + |Shown(t)|, depth + Turn(t), Code)
  {
    hide Scan, Occurs;
    match t
    case Sign(c) =>
      OccursOne(s, c, i);
      ScanSign(s, i, depth, c, after);
    case Bracket(c) =>
      OccursOne(s, c, i);
      ScanBracket(s, i, depth);
    case Text(quote, body) => ScanText(s, i, depth, quote, body);
    case Note(text) => ScanNote(s, i, text);
  }

  lemma ScanNote(s: string, i: nat, text: string)
    requires '\n' !in text && Occurs(s, "//" + text + "\n", i)
    ensures Scan(s, i, 0, Code) == Scan(s, i + 3 + |text|, 0, Code)
  {
    OccursSplit(s, "//" + text, "\n", i);
    OccursOne(s, '\n', i + 2 + |text|);
    NoteEnds(s, i, text);
  }

  /** The scanner walks over every token list, whatever depth it starts from and comes to. */
  lemma {:induction false} ScanTokens(s: string, i: nat, depth: int, ts: seq<Token>, after: string)
    requires Reads(ts, depth, after) && Occurs(s, ShownAll(ts) + after, i)
    requires after == [] ==> i + |ShownAll(ts)| == |s|
    ensures Scan(s, i, depth, Code) == Scan(s, i + |ShownAll(ts)|, Level(depth, ts), Code)
    decreases |ts|
  {
    hide Scan, Occurs, Fits, Shown;
    if ts != [] {
      var rest := ShownAll(ts[1..]) + after;
      Sequences.Assoc(Shown(ts[0]), ShownAll(ts[1..]), after);
      OccursSplit(s, Shown(ts[0]), rest, i);
      ScanToken(s, i, depth, ts[0], rest);
      ScanTokens(s, i + |Shown(ts[0])|, depth + Turn(ts[0]), ts[1..], after);
    }
  }

  lemma ScanEnds(s: string, i: nat, depth: int, ts: seq<Token>)
    requires EndsAfter(s, i, depth, ts)
    ensures Scan(s, i, depth, Code) == i + |ShownAll(ts)| + 1
  {
    hide Scan, Occurs, Reads, ShownAll;
    ScanTokens(s, i, depth, ts, ";");
    OccursSplit(s, ShownAll(ts), ";", i);
    OccursOne(s, ';', i + |ShownAll(ts)|);
    ScanSemicolon(s, i + |ShownAll(ts)|);
  }

  lemma ScanSemicolon(s: string, i: nat)
    requires i < |s| && s[i] == ';'
    ensures Scan(s, i, 0, Code) == i + 1
  {
  }

  lemma EndsHere(s: string, i: nat)
    requires i < |s| && s[i] == ';'
    ensures EndsAfter(s, i, 0, [])
  {
    OccursOne(s, ';', i);
    assert ShownAll([]) + ";" == ";";
  }

  lemma ScanNothing(s: string, i: nat, depth: int)
    requires i >= |s|
    ensures Scan(s, i, depth, Code) == |s|
  {
  }

  /** Of the text from `i` on, in a string: its body and quote, or nothing when it is never closed. */
  lemma {:induction false} ReadBody(s: string, i: nat, depth: int, quote: char) returns (body: Option<seq<Piece>>)
    ensures match body
            case None => Scan(s, i, depth, Quoted(quote)) == |s|
            case Some(b) =>
              && i + |PrintBody(b)| < |s| && IsBody(b, quote) && Occurs(s, PrintBody(b) + [quote], i)
              && Scan(s, i, depth, Quoted(quote)) == Scan(s, i + |PrintBody(b)| + 1, depth, Code)
    decreases |s| - i
  {
    hide Occurs;
    if i >= |s| {
      body := None;
    } else if s[i] == '\\' {
      body := ReadBody(s, i + 2, depth, quote);
      if body.Some? {
        OccursTwo(s, '\\', s[i + 1], i);
        var b := ConsPiece(s, i, quote, Esc(s[i + 1]), body.value);
        body := Some(b);
      }
    } else if s[i] == quote {
      body := Some([]);
      OccursOne(s, quote, i);
      assert PrintBody([]) + [quote] == [quote];
    } else {
      body := ReadBody(s, i + 1, depth, quote);
      if body.Some? {
        OccursOne(s, s[i], i);
        var b := ConsPiece(s, i, quote, Lit(s[i]), body.value);
        body := Some(b);
      }
    }
  }

  lemma ConsPiece(s: string, i: nat, quote: char, p: Piece, more: seq<Piece>) returns (body: seq<Piece>)
    requires IsBody(more, quote) && (p.Lit? ==> p.c != quote && p.c != '\\')
    requires var text := if p.Lit? then [p.c] else ['\\', p.c];
             Occurs(s, text, i) && Occurs(s, PrintBody(more) + [quote], i + |text|)
    ensures IsBody(body, quote) && Occurs(s, PrintBody(body) + [quote], i)
    ensures |PrintBody(body)| == (if p.Lit? then 1 else 2) + |PrintBody(more)|
  {
    hide Occurs;
    var text := if p.Lit? then [p.c] else ['\\', p.c];
    body := [p] + more;
    assert body[1..] == more;
    Sequences.Assoc(text, PrintBody(more), [quote]);
    OccursSplit(s, text, PrintBody(more) + [quote], i);
  }

  lemma ConsToken(s: string, i: nat, depth: int, t: Token, more: seq<Token>) returns (ts: seq<Token>)
    requires Occurs(s, Shown(t), i) && EndsAfter(s, i + |Shown(t)|, depth + Turn(t), more)
    requires forall after | Occurs(s, after, i + |Shown(t)|) :: Fits(t, depth, after)
    ensures EndsAfter(s, i, depth, ts)
  {
    hide Occurs, Fits, Shown;
    ts := [t] + more;
    assert ts[1..] == more;
    Sequences.Assoc(Shown(t), ShownAll(more), ";");
    OccursSplit(s, Shown(t), ShownAll(more) + ";", i);
  }

  /** The token `t` stands at `i`; when there is none, the scan runs to the end of the text. */
  ghost predicate Next(s: string, i: nat, depth: int, t: Option<Token>) {
    match t
    case None => Scan(s, i, depth, Code) == |s|
    case Some(t) =>
      var next := i + |Shown(t)|;
      && i < next && Occurs(s, Shown(t), i)
      && Scan(s, i, depth, Code) == Scan(s, next, depth + Turn(t), Code)
      && forall after | Occurs(s, after, next) :: Fits(t, depth, after)
  }

  lemma TextAt(s: string, i: nat, depth: int) returns (t: Option<Token>)
    requires i < |s| && IsQuote(s[i])
    ensures Next(s, i, depth, t)
  {
    var c := s[i];
    var body := ReadBody(s, i + 1, depth, c);
    assert Scan(s, i, depth, Code) == Scan(s, i + 1, depth, Quoted(c));
    hide Scan, Occurs;
    if body.None? { return None; }
    t := Some(Text(c, body.value));
    OccursOne(s, c, i);
    OccursSplit(s, [c], PrintBody(body.value) + [c], i);
    Sequences.Assoc([c], PrintBody(body.value), [c]);
  }

  lemma NoteAt(s: string, i: nat) returns (t: Option<Token>)
    requires StartsComment(s, i)
    ensures Next(s, i, 0, t)
  {
    var nl := LineEnd(s, i);
    if nl == |s| { return None; }
    var text := s[i + 2..nl];
    t := Some(Note(text));
    assert Occurs(s, "//" + text + "\n", i);
  }

  lemma SignAt(s: string, i: nat, depth: int)
    requires i < |s| && !IsQuote(s[i]) && !IsOpen(s[i]) && !IsClose(s[i])
    requires depth == 0 ==> s[i] != ';' && !StartsComment(s, i)
    ensures Next(s, i, depth, Some(Sign(s[i])))
  {
    OccursOne(s, s[i], i);
    forall after | Occurs(s, after, i + 1) ensures Fits(Sign(s[i]), depth, after) {
      assert after != [] ==> s[i + 1 + 0] == after[0];
    }
  }

  lemma BracketAt(s: string, i: nat, depth: int)
    requires i < |s| && (IsOpen(s[i]) || IsClose(s[i]))
    ensures Next(s, i, depth, Some(Bracket(s[i])))
  {
    OccursOne(s, s[i], i);
  }

  lemma TokenAt(s: string, i: nat, depth: int) returns (t: Option<Token>)
    requires i < |s| && !(depth == 0 && s[i] == ';')
    ensures Next(s, i, depth, t)
  {
    hide Next;
    if IsQuote(s[i]) {
      t := TextAt(s, i, depth);
    } else if IsOpen(s[i]) || IsClose(s[i]) {
      t := Some(Bracket(s[i]));
      BracketAt(s, i, depth);
    } else if depth == 0 && StartsComment(s, i) {
      t := NoteAt(s, i);
    } else {
      t := Some(Sign(s[i]));
      SignAt(s, i, depth);
    }
  }

  /** Reads the tokens up to the semicolon that ends the statement; without one the scan runs to the end. */
  lemma {:induction false} ReadTokens(s: string, i: nat, depth: int) returns (ts: Option<seq<Token>>)
    ensures ts.Some? ==> EndsAfter(s, i, depth, ts.value)
    ensures ts.None? ==> Scan(s, i, depth, Code) == |s|
    decreases |s| - i
  {
    hide Scan, Occurs, Fits, Shown, EndsAfter;
    if i >= |s| {
      ts := None;
      ScanNothing(s, i, depth);
    } else if depth == 0 && s[i] == ';' {
      ts := Some([]);
      EndsHere(s, i);
    } else {
      var t := TokenAt(s, i, depth);
      if t.None? { return None; }
      ts := ReadTokens(s, i + |Shown(t.value)|, depth + Turn(t.value));
      if ts.Some? {
        var all := ConsToken(s, i, depth, t.value, ts.value);
        ts := Some(all);
      }
    }
  }

  /**
   * The scan of any text: one past the semicolon when a token list that leads to depth zero and a
   * semicolon stand at `i`, and the end of the text when none does.
   */
  lemma ScanExactly(s: string, i: nat)
    ensures forall ts | EndsAfter(s, i, 0, ts) :: Scan(s, i, 0, Code) == i + |ShownAll(ts)| + 1
    ensures (forall ts :: !EndsAfter(s, i, 0, ts)) ==> Scan(s, i, 0, Code) == |s|
  {
    forall ts | EndsAfter(s, i, 0, ts) ensures Scan(s, i, 0, Code) == i + |ShownAll(ts)| + 1 {
      ScanEnds(s, i, 0, ts);
    }
    var ts := ReadTokens(s, i, 0);
  }

  /** The rest of a text that ends inside a string or, at depth zero, inside a note. */
  datatype Tail = Whole | OpenText(quote: char, body: seq<Piece>, escape: bool) | OpenNote(text: string)

  function ShownTail(t: Tail): string {
    match t
    case Whole => []
    case OpenText(quote, body, escape) => [quote] + (PrintBody(body) + if escape then ['\\'] else [])
    case OpenNote(text) => "//" + text
  }

  ghost predicate FitsTail(t: Tail, depth: int) {
    match t
    case Whole => true
    case OpenText(quote, body, _) => IsQuote(quote) && IsBody(body, quote)
    case OpenNote(text) => depth == 0 && '\n' !in text
  }

  /** A text that ends after these tokens, in whatever group, or inside a string or note. */
  ghost predicate RunsOut(s: string, i: nat, ts: seq<Token>, tail: Tail) {
    && Reads(ts, 0, ShownTail(tail)) && FitsTail(tail, Level(0, ts))
    && Occurs(s, ShownAll(ts) + ShownTail(tail), i) && i + |ShownAll(ts) + ShownTail(tail)| == |s|
  }

  lemma ScanTail(s: string, i: nat, depth: int, tail: Tail)
    requires FitsTail(tail, depth) && Occurs(s, ShownTail(tail), i) && i + |ShownTail(tail)| == |s|
    ensures Scan(s, i, depth, Code) == |s|
  {
    match tail
    case Whole =>
    case OpenText(quote, body, escape) =>
      var last := if escape then ['\\'] else [];
      OccursSplit(s, [quote], PrintBody(body) + last, i);
      OccursOne(s, quote, i);
      OccursSplit(s, PrintBody(body), last, i + 1);
      ScanBody(s, i + 1, depth, quote, body);
      if escape { OccursOne(s, '\\', |s| - 1); }
    case OpenNote(text) =>
      NoteEnds(s, i, text);
  }

  /** A statement that the text never ends is scanned to the end of the text. */
  lemma ScanRunsOut(s: string, i: nat, ts: seq<Token>, tail: Tail)
    requires RunsOut(s, i, ts, tail)
    ensures Scan(s, i, 0, Code) == |s|
  {
    hide Scan, Occurs, ShownTail, ShownAll, Reads, FitsTail, Level;
    OccursSplit(s, ShownAll(ts), ShownTail(tail), i);
    ScanTokens(s, i, 0, ts, ShownTail(tail));
    ScanTail(s, i + |ShownAll(ts)|, Level(0, ts), tail);
  }

  /**
   * The same walk, giving an answer only when it ends at a semicolon and brackets never close
   * more than was opened on the way.
   */
  function Stop(s: string, i: nat, depth: nat, mode: Mode): (end: Option<nat>)
    decreases |s| - i
  {
    if i >= |s| then None
    else if mode.Quoted? then
      if s[i] == '\\' then Stop(s, i + 2, depth, mode)
      else Stop(s, i + 1, depth, if s[i] == mode.quote then Code else mode)
    else if IsQuote(s[i]) then Stop(s, i + 1, depth, Quoted(s[i]))
    else if IsOpen(s[i]) then Stop(s, i + 1, depth + 1, Code)
    else if IsClose(s[i]) then if depth == 0 then None else Stop(s, i + 1, depth - 1, Code)
    else if depth == 0 && s[i] == ';' then Some(i + 1)
    else if depth == 0 && StartsComment(s, i) then Stop(s, LineEnd(s, i), depth, Code)
    else Stop(s, i + 1, depth, Code)
  }

  lemma {:induction false} StopIsScan(s: string, i: nat, depth: nat, mode: Mode)
    ensures Stop(s, i, depth, mode).Some? ==> Stop(s, i, depth, mode).value == Scan(s, i, depth, mode)
    decreases |s| - i
  {
    if i >= |s| {
    } else if mode.Quoted? {
      StopIsScan(s, i + 2, depth, mode);
      StopIsScan(s, i + 1, depth, if s[i] == mode.quote then Code else mode);
    } else if IsQuote(s[i]) {
      StopIsScan(s, i + 1, depth, Quoted(s[i]));
    } else if IsOpen(s[i]) {
      StopIsScan(s, i + 1, depth + 1, Code);
    } else if IsClose(s[i]) {
      if depth > 0 { StopIsScan(s, i + 1, depth - 1, Code); }
    } else if depth == 0 && StartsComment(s, i) {
      StopIsScan(s, LineEnd(s, i), depth, Code);
    } else {
      StopIsScan(s, i + 1, depth, Code);
    }
  }

  // ---------------------------------------------------------------------------
  // The grammar and its printer
  // ---------------------------------------------------------------------------

  /** An expression is a list of tokens; a bracket group nests another list. */
  datatype Expr =
    | End
    | Char(c: char, rest: Expr)
    | Str(quote: char, body: seq<Piece>, rest: Expr)
    | Group(open: char, inner: Expr, close: char, rest: Expr)
    | Comment(text: string, rest: Expr)

  function Print(e: Expr): string {
    match e
    case End => []
    case Char(c, rest) => [c] + Print(rest)
    case Str(quote, body, rest) => [quote] + PrintBody(body) + [quote] + Print(rest)
    case Group(open, inner, close, rest) => [open] + Print(inner) + [close] + Print(rest)
    case Comment(text, rest) => "//" + text + "\n" + Print(rest)
  }

  predicate StartsWithSlash(e: Expr) {
    e.Comment? || (e.Char? && e.c == '/')
  }

  /**
   * Which token lists are expressions. Semicolons and slash pairs are plain characters inside
   * brackets; a comment stands only outside them and owns its newline.
   */
  predicate Valid(e: Expr, nested: bool) {
    match e
    case End => true
    case Char(c, rest) =>
      && !IsQuote(c) && !IsOpen(c) && !IsClose(c)
      && (nested || (c != ';' && (c == '/' ==> !StartsWithSlash(rest))))
      && Valid(rest, nested)
    case Str(quote, body, rest) =>
      && IsQuote(quote)
      && (forall p | p in body && p.Lit? :: p.c != quote && p.c != '\\')
      && Valid(rest, nested)
    case Group(open, inner, close, rest) =>
      IsOpen(open) && IsClose(close) && Valid(inner, true) && Valid(rest, nested)
    case Comment(text, rest) =>
      !nested && '\n' !in text && Valid(rest, nested)
  }

  /** The tokens of an expression. */
  ghost function Flat(e: Expr): seq<Token> {
    match e
    case End => []
    case Char(c, rest) => [Sign(c)] + Flat(rest)
    case Str(quote, body, rest) => [Text(quote, body)] + Flat(rest)
    case Group(open, inner, close, rest) => [Bracket(open)] + (Flat(inner) + ([Bracket(close)] + Flat(rest)))
    case Comment(text, rest) => [Note(text)] + Flat(rest)
  }

  lemma {:induction false} TokensAppend(a: seq<Token>, b: seq<Token>, depth: int, after: string)
    ensures ShownAll(a + b) == ShownAll(a) + ShownAll(b)
    ensures Level(depth, a + b) == Level(Level(depth, a), b)
    ensures Reads(a + b, depth, after) <==> Reads(a, depth, ShownAll(b) + after) && Reads(b, Level(depth, a), after)
    decreases |a|
  {
    hide Shown, Fits;
    if a == [] {
      assert a + b == b;
    } else {
      assert (a + b)[1..] == a[1..] + b;
      TokensAppend(a[1..], b, depth + Turn(a[0]), after);
      Sequences.Assoc(Shown(a[0]), ShownAll(a[1..]), ShownAll(b));
      Sequences.Assoc(ShownAll(a[1..]), ShownAll(b), after);
    }
  }

  lemma TokenFirst(t: Token, ts: seq<Token>, depth: int, after: string)
    ensures ShownAll([t] + ts) == Shown(t) + ShownAll(ts)
    ensures Level(depth, [t] + ts) == Level(depth + Turn(t), ts)
    ensures Reads([t] + ts, depth, after)
            <==> Fits(t, depth, ShownAll(ts) + after) && Reads(ts, depth + Turn(t), after)
  {
    assert ([t] + ts)[1..] == ts;
  }

  /** An expression is a token list that comes back to its depth. */
  lemma {:induction false} FlatLaws(e: Expr, depth: nat, after: string)
    requires Valid(e, depth > 0) && (depth == 0 ==> after == [] || after[0] != '/')
    ensures ShownAll(Flat(e)) == Print(e) && Level(depth, Flat(e)) == depth && Reads(Flat(e), depth, after)
    decreases e
  {
    hide ShownAll, Level, Reads;
    match e
    case End =>
      NoTokens(depth, after);
    case Char(c, rest) =>
      FlatLaws(rest, depth, after);
      TokenFirst(Sign(c), Flat(rest), depth, after);
      if depth == 0 && c == '/' { FirstSign(rest, after); }
    case Str(quote, body, rest) =>
      FlatLaws(rest, depth, after);
      TokenFirst(Text(quote, body), Flat(rest), depth, after);
    case Comment(text, rest) =>
      FlatLaws(rest, depth, after);
      TokenFirst(Note(text), Flat(rest), depth, after);
    case Group(open, inner, close, rest) =>
      var last := [Bracket(close)] + Flat(rest);
      FlatLaws(rest, depth, after);
      TokenFirst(Bracket(close), Flat(rest), depth + 1, after);
      FlatLaws(inner, depth + 1, ShownAll(last) + after);
      TokensAppend(Flat(inner), last, depth + 1, after);
      TokenFirst(Bracket(open), Flat(inner) + last, depth, after);
      Sequences.AssocFour([open], Print(inner), [close], Print(rest));
  }

  lemma NoTokens(depth: int, after: string)
    ensures ShownAll([]) == [] && Level(depth, []) == depth && Reads([], depth, after)
  {
  }

  /** The next text starts with a slash only when the next token does. */
  lemma FirstSign(e: Expr, after: string)
    requires Valid(e, false) && !StartsWithSlash(e) && (after == [] || after[0] != '/')
    ensures Print(e) + after == [] || (Print(e) + after)[0] != '/'
  {
  }

  /** An expression that the text ends after, with no semicolon outside its brackets, is scanned to the end. */
  lemma ExpressionRunsOut(s: string, i: nat, e: Expr)
    requires Valid(e, false) && Occurs(s, Print(e), i) && i + |Print(e)| == |s|
    ensures Scan(s, i, 0, Code) == |s|
  {
    hide Scan, Occurs, Print, Reads;
    FlatLaws(e, 0, []);
    assert Print(e) + [] == Print(e);
    ScanRunsOut(s, i, Flat(e), Whole);
  }

  // ---------------------------------------------------------------------------
  // Every printed expression is walked over
  // ---------------------------------------------------------------------------

  lemma {:induction false} WalkBody(s: string, i: nat, depth: nat, quote: char, body: seq<Piece>)
    requires Occurs(s, PrintBody(body), i)
    requires forall p | p in body && p.Lit? :: p.c != quote && p.c != '\\'
    ensures Stop(s, i, depth, Quoted(quote)) == Stop(s, i + |PrintBody(body)|, depth, Quoted(quote))
    decreases |body|
  {
    if body != [] {
      var rest := PrintBody(body[1..]);
      assert body[0] in body;
      match body[0]
      case Lit(c) =>
        OccursSplit(s, [c], rest, i);
        OccursOne(s, c, i);
        WalkBody(s, i + 1, depth, quote, body[1..]);
      case Esc(c) =>
        OccursSplit(s, ['\\', c], rest, i);
        assert ['\\', c][0] == '\\';
        WalkBody(s, i + 2, depth, quote, body[1..]);
    }
  }

  lemma WalkString(s: string, i: nat, depth: nat, quote: char, body: seq<Piece>)
    requires IsQuote(quote) && Occurs(s, [quote] + PrintBody(body) + [quote], i)
    requires forall p | p in body && p.Lit? :: p.c != quote && p.c != '\\'
    ensures Stop(s, i, depth, Code) == Stop(s, i + 2 + |PrintBody(body)|, depth, Code)
  {
    var b := PrintBody(body);
    OccursSplit(s, [quote] + b, [quote], i);
    OccursSplit(s, [quote], b, i);
    OccursOne(s, quote, i);
    OccursOne(s, quote, i + 1 + |b|);
    WalkBody(s, i + 1, depth, quote, body);
  }

  lemma WalkComment(s: string, i: nat, text: string)
    requires '\n' !in text && Occurs(s, "//" + text + "\n", i)
    ensures Stop(s, i, 0, Code) == Stop(s, i + 3 + |text|, 0, Code)
  {
    OccursSplit(s, "//" + text, "\n", i);
    OccursSplit(s, "//", text, i);
    OccursSplit(s, "/", "/", i);
    OccursOne(s, '/', i);
    OccursOne(s, '/', i + 1);
    var nl := i + 2 + |text|;
    OccursOne(s, '\n', nl);
    assert "/" + "/" == "//";
    forall k | i <= k < nl ensures s[k] != '\n' {
      if k >= i + 2 { assert s[i + 2 + (k - i - 2)] == text[k - i - 2]; }
    }
    assert LineEnd(s, i) == nl;
  }

  lemma NoSlashAhead(s: string, i: nat, e: Expr)
    requires Valid(e, false) && !StartsWithSlash(e) && Occurs(s, Print(e), i)
    requires i + |Print(e)| < |s| && s[i + |Print(e)|] != '/'
    ensures s[i] != '/'
  {
    if Print(e) != [] {
      assert s[i + 0] == Print(e)[0];
    }
  }

  /** What may follow a printed expression: at depth zero, one more character that is no slash. */
  ghost predicate Follows(s: string, i: nat, depth: nat) {
    depth == 0 ==> i < |s| && s[i] != '/'
  }

  /** The expression `e` stands at `i`. */
  ghost predicate Stands(s: string, i: nat, depth: nat, e: Expr) {
    Valid(e, depth > 0) && Occurs(s, Print(e), i) && Follows(s, i + |Print(e)|, depth)
  }

  lemma WalkChar(s: string, i: nat, depth: nat, e: Expr)
    requires e.Char? && Stands(s, i, depth, e)
    ensures Stop(s, i, depth, Code) == Stop(s, i + 1, depth, Code) && Stands(s, i + 1, depth, e.rest)
  {
    OccursSplit(s, [e.c], Print(e.rest), i);
    OccursOne(s, e.c, i);
    if depth == 0 && e.c == '/' {
      NoSlashAhead(s, i + 1, e.rest);
    }
  }

  lemma WalkBrackets(s: string, i: nat, depth: nat, e: Expr)
    requires e.Group? && Stands(s, i, depth, e)
    ensures Stop(s, i, depth, Code) == Stop(s, i + 1, depth + 1, Code)
    ensures Stop(s, i + 1 + |Print(e.inner)|, depth + 1, Code) == Stop(s, i + 2 + |Print(e.inner)|, depth, Code)
    ensures Stands(s, i + 1, depth + 1, e.inner) && Stands(s, i + 2 + |Print(e.inner)|, depth, e.rest)
  {
    var inner := Print(e.inner);
    OccursSplit(s, [e.open] + inner + [e.close], Print(e.rest), i);
    OccursSplit(s, [e.open] + inner, [e.close], i);
    OccursSplit(s, [e.open], inner, i);
    OccursOne(s, e.open, i);
    OccursOne(s, e.close, i + 1 + |inner|);
  }

  lemma WalkToken(s: string, i: nat, depth: nat, e: Expr) returns (n: nat)
    requires (e.Str? || e.Comment?) && Stands(s, i, depth, e)
    ensures |Print(e)| == n + |Print(e.rest)| && Stands(s, i + n, depth, e.rest)
    ensures Stop(s, i, depth, Code) == Stop(s, i + n, depth, Code)
  {
    hide Stop, Occurs;
    if e.Str? {
      n := 2 + |PrintBody(e.body)|;
      OccursSplit(s, [e.quote] + PrintBody(e.body) + [e.quote], Print(e.rest), i);
      WalkString(s, i, depth, e.quote, e.body);
    } else {
      n := 3 + |e.text|;
      OccursSplit(s, "//" + e.text + "\n", Print(e.rest), i);
      WalkComment(s, i, e.text);
    }
  }

  /** The scanner walks over a printed expression and comes out with the same depth, in code mode. */
  lemma {:induction false} Walk(s: string, i: nat, depth: nat, e: Expr)
    requires Stands(s, i, depth, e)
    ensures Stop(s, i, depth, Code) == Stop(s, i + |Print(e)|, depth, Code)
    decreases e
  {
    hide Stands, Stop;
    match e
    case End =>
    case Char(_, rest) =>
      WalkChar(s, i, depth, e);
      Walk(s, i + 1, depth, rest);
    case Group(_, inner, _, rest) =>
      WalkBrackets(s, i, depth, e);
      Walk(s, i + 1, depth + 1, inner);
      Walk(s, i + 2 + |Print(inner)|, depth, rest);
    case _ =>
      var n := WalkToken(s, i, depth, e);
      Walk(s, i + n, depth, e.rest);
  }

  lemma PrintedStops(s: string, i: nat, e: Expr)
    requires Valid(e, false) && Occurs(s, Print(e) + ";", i)
    ensures Stop(s, i, 0, Code) == Some(i + |Print(e)| + 1)
    ensures Scan(s, i, 0, Code) == i + |Print(e)| + 1
  {
    OccursSplit(s, Print(e), ";", i);
    OccursOne(s, ';', i + |Print(e)|);
    Walk(s, i, 0, e);
    StopIsScan(s, i, 0, Code);
  }

  /** Scanning from the end of `prefix` stops exactly one past the semicolon that ends the expression. */
  lemma ScanStopsAtSemicolon(prefix: string, e: Expr, rest: string)
    requires Valid(e, false)
    ensures Scan(prefix + Print(e) + ";" + rest, |prefix|, 0, Code) == |prefix| + |Print(e)| + 1
  {
    Sequences.Assoc(prefix, Print(e), ";");
    OccursInMiddle(prefix, Print(e) + ";", rest);
    PrintedStops(prefix + Print(e) + ";" + rest, |prefix|, e);
  }

  // ---------------------------------------------------------------------------
  // Nothing but printed expressions is walked over
  // ---------------------------------------------------------------------------

  /** What the scanner still has to read: the rest of each open bracket group, then of the statement. */
  datatype Rest = Top(e: Expr) | Inside(e: Expr, close: char, outer: Rest)

  function Depth(r: Rest): nat {
    if r.Top? then 0 else 1 + Depth(r.outer)
  }

  function PrintRest(r: Rest): string {
    match r
    case Top(e) => Print(e) + ";"
    case Inside(e, close, outer) => Print(e) + ([close] + PrintRest(outer))
  }

  predicate ValidRest(r: Rest) {
    match r
    case Top(e) => Valid(e, false)
    case Inside(e, close, outer) => Valid(e, true) && IsClose(close) && ValidRest(outer)
  }

  /** Prepending a token prepends its text. */
  lemma Prepend(r: Rest, e: Expr, text: string)
    requires Print(e) == text + Print(r.e)
    ensures PrintRest(r.(e := e)) == text + PrintRest(r)
  {
    match r
    case Top(former) => Sequences.Assoc(text, Print(former), ";");
    case Inside(former, close, outer) => Sequences.Assoc(text, Print(former), [close] + PrintRest(outer));
  }

  lemma {:induction false} ReadString(s: string, i: nat, depth: nat, quote: char) returns (body: seq<Piece>, r: Rest)
    requires IsQuote(quote) && Stop(s, i, depth, Quoted(quote)).Some?
    ensures forall p | p in body && p.Lit? :: p.c != quote && p.c != '\\'
    ensures Depth(r) == depth && ValidRest(r)
    ensures Occurs(s, PrintBody(body) + ([quote] + PrintRest(r)), i)
    ensures Stop(s, i, depth, Quoted(quote)) == Some(i + |PrintBody(body)| + 1 + |PrintRest(r)|)
    decreases |s| - i
  {
    hide Occurs;
    if s[i] == quote {
      body := [];
      r := Read(s, i + 1, depth);
      OccursOne(s, quote, i);
      OccursSplit(s, [quote], PrintRest(r), i);
      assert PrintBody(body) + ([quote] + PrintRest(r)) == [quote] + PrintRest(r);
    } else if s[i] == '\\' {
      var more;
      more, r := ReadString(s, i + 2, depth, quote);
      OccursTwo(s, '\\', s[i + 1], i);
      var tail := [quote] + PrintRest(r);
      body := [Esc(s[i + 1])] + more;
      assert PrintBody(body) == ['\\', s[i + 1]] + PrintBody(more);
      Sequences.Assoc(['\\', s[i + 1]], PrintBody(more), tail);
      OccursSplit(s, ['\\', s[i + 1]], PrintBody(more) + tail, i);
    } else {
      var more;
      more, r := ReadString(s, i + 1, depth, quote);
      var tail := [quote] + PrintRest(r);
      body := [Lit(s[i])] + more;
      assert PrintBody(body) == [s[i]] + PrintBody(more);
      Sequences.Assoc([s[i]], PrintBody(more), tail);
      OccursSplit(s, [s[i]], PrintBody(more) + tail, i);
      OccursOne(s, s[i], i);
    }
  }

  lemma {:induction false} Read(s: string, i: nat, depth: nat) returns (r: Rest)
    requires Stop(s, i, depth, Code).Some?
    ensures Depth(r) == depth && ValidRest(r) && Occurs(s, PrintRest(r), i)
    ensures Stop(s, i, depth, Code) == Some(i + |PrintRest(r)|)
    decreases |s| - i
  {
    hide Occurs;
    var c := s[i];
    OccursOne(s, c, i);
    if IsQuote(c) {
      var body, tail := ReadString(s, i + 1, depth, c);
      r := ConsString(s, i, c, body, tail);
    } else if IsOpen(c) {
      var inner := Read(s, i + 1, depth + 1);
      r := ConsGroup(s, i, c, inner);
    } else if IsClose(c) {
      var outer := Read(s, i + 1, depth - 1);
      r := Inside(End, c, outer);
      OccursSplit(s, [c], PrintRest(outer), i);
      assert PrintRest(r) == [c] + PrintRest(outer);
    } else if depth == 0 && c == ';' {
      r := Top(End);
      assert PrintRest(r) == ";";
    } else if depth == 0 && StartsComment(s, i) {
      var nl := LineEnd(s, i);
      assert Stop(s, nl, depth, Code) == Stop(s, nl + 1, depth, Code);
      var tail := Read(s, nl + 1, depth);
      r := ConsComment(s, i, nl, tail);
    } else {
      var tail := Read(s, i + 1, depth);
      r := ConsChar(s, i, tail);
    }
  }

  lemma ConsString(s: string, i: nat, quote: char, body: seq<Piece>, tail: Rest) returns (r: Rest)
    requires i < |s| && s[i] == quote && IsQuote(quote) && ValidRest(tail)
    requires forall p | p in body && p.Lit? :: p.c != quote && p.c != '\\'
    requires Occurs(s, PrintBody(body) + ([quote] + PrintRest(tail)), i + 1)
    ensures Depth(r) == Depth(tail) && ValidRest(r) && Occurs(s, PrintRest(r), i)
    ensures |PrintRest(r)| == 2 + |PrintBody(body)| + |PrintRest(tail)|
  {
    var e := Str(quote, body, tail.e);
    r := tail.(e := e);
    var b, after := PrintBody(body), PrintRest(tail);
    Prepend(tail, e, [quote] + b + [quote]);
    Sequences.Assoc([quote] + b, [quote], after);
    Sequences.Assoc([quote], b, [quote] + after);
    OccursOne(s, quote, i);
    OccursSplit(s, [quote], b + ([quote] + after), i);
  }

  lemma ConsGroup(s: string, i: nat, open: char, inner: Rest) returns (r: Rest)
    requires i < |s| && s[i] == open && IsOpen(open) && inner.Inside? && ValidRest(inner)
    requires Occurs(s, PrintRest(inner), i + 1)
    ensures Depth(r) + 1 == Depth(inner) && ValidRest(r) && Occurs(s, PrintRest(r), i)
    ensures |PrintRest(r)| == 1 + |PrintRest(inner)|
  {
    var e := Group(open, inner.e, inner.close, inner.outer.e);
    r := inner.outer.(e := e);
    var text := [open] + Print(inner.e) + [inner.close];
    GroupFits(open, inner);
    hide Occurs, Print, PrintRest, ValidRest, Valid;
    Prepend(inner.outer, e, text);
    OccursOne(s, open, i);
    OccursSplit(s, [open], PrintRest(inner), i);
    Sequences.AssocFour([open], Print(inner.e), [inner.close], PrintRest(inner.outer));
  }

  lemma GroupFits(open: char, inner: Rest)
    requires IsOpen(open) && inner.Inside? && ValidRest(inner)
    ensures var e := Group(open, inner.e, inner.close, inner.outer.e);
            && Print(e) == [open] + Print(inner.e) + [inner.close] + Print(inner.outer.e)
            && PrintRest(inner) == Print(inner.e) + ([inner.close] + PrintRest(inner.outer))
            && ValidRest(inner.outer.(e := e)) && Depth(inner.outer.(e := e)) + 1 == Depth(inner)
  {
  }

  lemma ConsComment(s: string, i: nat, nl: nat, tail: Rest) returns (r: Rest)
    requires StartsComment(s, i) && nl == LineEnd(s, i) < |s| && tail.Top? && ValidRest(tail)
    requires Occurs(s, PrintRest(tail), nl + 1)
    ensures Depth(r) == Depth(tail) && ValidRest(r) && Occurs(s, PrintRest(r), i)
    ensures |PrintRest(r)| == nl + 1 - i + |PrintRest(tail)|
  {
    var text := s[i + 2..nl];
    var e := Comment(text, tail.e);
    r := Top(e);
    var whole := "//" + text + "\n";
    Prepend(tail, e, whole);
    assert Occurs(s, whole, i);
    OccursSplit(s, whole, PrintRest(tail), i);
  }

  lemma ConsChar(s: string, i: nat, tail: Rest) returns (r: Rest)
    requires i < |s| && !IsQuote(s[i]) && !IsOpen(s[i]) && !IsClose(s[i]) && ValidRest(tail)
    requires tail.Top? ==> s[i] != ';' && !StartsComment(s, i)
    requires Occurs(s, PrintRest(tail), i + 1)
    ensures Depth(r) == Depth(tail) && ValidRest(r) && Occurs(s, PrintRest(r), i)
    ensures |PrintRest(r)| == 1 + |PrintRest(tail)|
  {
    var e := Char(s[i], tail.e);
    r := tail.(e := e);
    Prepend(tail, e, [s[i]]);
    OccursOne(s, s[i], i);
    OccursSplit(s, [s[i]], PrintRest(tail), i);
    if tail.Top? && StartsWithSlash(tail.e) {
      assert PrintRest(tail)[0] == '/';
      assert s[i + 1 + 0] == '/';
    }
  }

  /**
   * The scanner, started in code at depth zero, stops at a semicolon without ever closing more
   * than was opened exactly when it stands before a printed expression and its semicolon.
   */
  lemma StopsExactlyAfterExpressions(s: string, i: nat, end: nat)
    ensures Stop(s, i, 0, Code) == Some(end)
            <==> exists e :: Valid(e, false) && Occurs(s, Print(e) + ";", i) && end == i + |Print(e)| + 1
  {
    if Stop(s, i, 0, Code) == Some(end) {
      var r := Read(s, i, 0);
      assert r.Top?;
    }
    if e :| Valid(e, false) && Occurs(s, Print(e) + ";", i) && end == i + |Print(e)| + 1 {
      PrintedStops(s, i, e);
    }
  }

  // ---------------------------------------------------------------------------
  // The source's loop
  // ---------------------------------------------------------------------------

  ghost function ModeOf(inSingle: bool, inDouble: bool, inTemplate: bool): Mode {
    if inSingle then Quoted('\'') else if inDouble then Quoted('"') else if inTemplate then Quoted('`') else Code
  }

  method ScanExpressionEnd(source: string, start: nat) returns (end: nat)
    ensures end == Scan(source, start, 0, Code)
    ensures forall ts | EndsAfter(source, start, 0, ts) :: end == start + |ShownAll(ts)| + 1
    ensures (forall ts :: !EndsAfter(source, start, 0, ts)) ==> end == |source|
  {
    hide EndsAfter;
    ScanExactly(source, start);
    var i, depth := start, 0;
    var inSingle, inDouble, inTemplate := false, false, false;
    while i < |source|
      invariant !(inSingle && inDouble) && !(inSingle && inTemplate) && !(inDouble && inTemplate)
      invariant Scan(source, i, depth, ModeOf(inSingle, inDouble, inTemplate)) == Scan(source, start, 0, Code)
      invariant start <= i
      decreases |source| - i
    {
      var ch := source[i];
      if inSingle {
        if ch == '\\' { i := i + 2; continue; }
        if ch == '\'' { inSingle := false; }
        i := i + 1;
        continue;
      }
      if inDouble {
        if ch == '\\' { i := i + 2; continue; }
        if ch == '"' { inDouble := false; }
        i := i + 1;
        continue;
      }
      if inTemplate {
        if ch == '\\' { i := i + 2; continue; }
        if ch == '`' { inTemplate := false; }
        i := i + 1;
        continue;
      }
      if ch == '\'' {
        inSingle := true;
      } else if ch == '"' {
        inDouble := true;
      } else if ch == '`' {
        inTemplate := true;
      } else if IsOpen(ch) {
        depth := depth + 1;
      } else if IsClose(ch) {
        depth := depth - 1;
      } else if depth == 0 && ch == ';' {
        return i + 1;
      } else if depth == 0 && ch == '/' && i + 1 < |source| && source[i + 1] == '/' {
        ghost var from := i;
        while i < |source| && source[i] != '\n'
          invariant from <= i <= |source| && LineEnd(source, i) == LineEnd(source, from)
        {
          i := i + 1;
        }
        continue;
      }
      i := i + 1;
    }
    end := |source|;
  }

}
