/** The few string operations of the host language that the modelled code calls. */
module JsString {
  /** The white space and line terminators that `trim` and the regular expression class `\s` agree on. */
  predicate IsSpace(c: char) {
    || '\t' <= c <= '\r' || c == ' ' || c == '\U{00A0}' || c == '\U{1680}'
    || '\U{2000}' <= c <= '\U{200A}' || c == '\U{2028}' || c == '\U{2029}'
    || c == '\U{202F}' || c == '\U{205F}' || c == '\U{3000}' || c == '\U{FEFF}'
  }

  ghost predicate Blank(s: string) {
    forall k | 0 <= k < |s| :: IsSpace(s[k])
  }

  /** The first position, from `i` on, that holds no space. */
  function SkipSpaces(s: string, i: nat): (n: nat)
    requires i <= |s|
    ensures i <= n <= |s|
    ensures forall k | i <= k < n :: IsSpace(s[k])
    ensures n < |s| ==> !IsSpace(s[n])
    decreases |s| - i
  {
    if i < |s| && IsSpace(s[i]) then SkipSpaces(s, i + 1) else i
  }

  function TrimStart(s: string): string {
    s[SkipSpaces(s, 0)..]
  }

  function TrimEnd(s: string): string {
    if s != [] && IsSpace(s[|s| - 1]) then TrimEnd(s[..|s| - 1]) else s
  }

  function Trim(s: string): string {
    TrimEnd(TrimStart(s))
  }

  lemma {:induction false} SkipSpacesIs(s: string, i: nat, n: nat)
    requires i <= n <= |s| && forall k | i <= k < n :: IsSpace(s[k])
    requires n < |s| ==> !IsSpace(s[n])
    ensures SkipSpaces(s, i) == n
    decreases n - i
  {
    if i < n {
      SkipSpacesIs(s, i + 1, n);
    }
  }

  lemma TrimStartSkips(gap: string, s: string)
    requires Blank(gap)
    ensures TrimStart(gap + s) == TrimStart(s)
  {
    var m := SkipSpaces(s, 0);
    forall k | 0 <= k < |gap| + m ensures IsSpace((gap + s)[k]) {
      if k >= |gap| { assert (gap + s)[k] == s[k - |gap|]; }
    }
    SkipSpacesIs(gap + s, 0, |gap| + m);
    assert (gap + s)[|gap| + m..] == s[m..];
  }

  lemma TrimStartKeeps(s: string)
    requires s != [] && !IsSpace(s[0])
    ensures TrimStart(s) == s
  {
    SkipSpacesIs(s, 0, 0);
  }

  lemma TrimStartAgain(s: string)
    ensures TrimStart(TrimStart(s)) == TrimStart(s)
  {
    var t := TrimStart(s);
    assert t != [] ==> t[0] == s[SkipSpaces(s, 0)];
    assert SkipSpaces(t, 0) == 0;
  }

  predicate Occurs(s: string, pattern: string, at: nat) {
    at + |pattern| <= |s| && forall k | 0 <= k < |pattern| :: s[at + k] == pattern[k]
  }

  /** `s.indexOf(pattern, from)`. */
  function IndexOf(s: string, pattern: string, from: nat): (r: int)
    ensures r == -1 || (from <= r && r + |pattern| <= |s|)
    decreases |s| - from
  {
    if from + |pattern| > |s| then -1
    else if Occurs(s, pattern, from) then from
    else IndexOf(s, pattern, from + 1)
  }

  lemma {:induction false} IndexOfFirst(s: string, pattern: string, from: nat, at: nat)
    requires from <= at && Occurs(s, pattern, at)
    requires forall i: nat | from <= i < at :: !Occurs(s, pattern, i)
    ensures IndexOf(s, pattern, from) == at
    decreases at - from
  {
    if from < at {
      IndexOfFirst(s, pattern, from + 1, at);
    }
  }

  lemma {:induction false} IndexOfNone(s: string, pattern: string, from: nat)
    requires forall i: nat | from <= i :: !Occurs(s, pattern, i)
    ensures IndexOf(s, pattern, from) == -1
    decreases |s| - from
  {
    if from + |pattern| <= |s| {
      IndexOfNone(s, pattern, from + 1);
    }
  }

  /** From `from` on, the pattern occurs at `at` and not before. */
  ghost predicate FirstAt(s: string, pattern: string, from: nat, at: nat) {
    from <= at && Occurs(s, pattern, at) && forall p: nat | from <= p < at :: !Occurs(s, pattern, p)
  }

  ghost predicate NoneFrom(s: string, pattern: string, from: nat) {
    forall p: nat | from <= p :: !Occurs(s, pattern, p)
  }

  lemma {:induction false} IndexOfExactly(s: string, pattern: string, from: nat)
    ensures var r := IndexOf(s, pattern, from);
            if r == -1 then NoneFrom(s, pattern, from) else r >= 0 && FirstAt(s, pattern, from, r)
    decreases |s| - from
  {
    if from + |pattern| <= |s| && !Occurs(s, pattern, from) {
      IndexOfExactly(s, pattern, from + 1);
    }
  }

  lemma OccursOne(s: string, c: char, i: nat)
    ensures Occurs(s, [c], i) <==> i < |s| && s[i] == c
  {
    if Occurs(s, [c], i) {
      assert s[i + 0] == [c][0];
    }
  }

  lemma OccursTwo(s: string, c: char, d: char, i: nat)
    ensures Occurs(s, [c, d], i) <==> i + 1 < |s| && s[i] == c && s[i + 1] == d
  {
    if Occurs(s, [c, d], i) {
      assert s[i + 0] == [c, d][0] && s[i + 1] == [c, d][1];
    }
  }

  lemma OccursSplit(s: string, a: string, b: string, i: nat)
    ensures Occurs(s, a + b, i) <==> Occurs(s, a, i) && Occurs(s, b, i + |a|)
  {
    if Occurs(s, a + b, i) {
      forall k | 0 <= k < |a| ensures s[i + k] == a[k] {
        assert (a + b)[k] == a[k];
      }
      forall k | 0 <= k < |b| ensures s[i + |a| + k] == b[k] {
        assert (a + b)[|a| + k] == b[k];
      }
    }
  }

  lemma OccursInMiddle(prefix: string, text: string, rest: string)
    ensures Occurs(prefix + text + rest, text, |prefix|)
  {
  }

  lemma {:induction false} TrimEndLaws(s: string)
    ensures |TrimEnd(s)| <= |s| && TrimEnd(s) == s[..|TrimEnd(s)|]
    ensures TrimEnd(s) != [] ==> !IsSpace(TrimEnd(s)[|TrimEnd(s)| - 1])
    ensures forall k | |TrimEnd(s)| <= k < |s| :: IsSpace(s[k])
  {
    if s != [] && IsSpace(s[|s| - 1]) {
      TrimEndLaws(s[..|s| - 1]);
    }
  }

  lemma TrimTwice(s: string)
    ensures Trim(Trim(s)) == Trim(s)
  {
    var t := TrimStart(s);
    TrimEndLaws(t);
    var r := TrimEnd(t);
    if r != [] {
      assert r[0] == t[0] && t[0] == s[SkipSpaces(s, 0)];
      TrimStartKeeps(r);
    } else {
      SkipSpacesIs(r, 0, 0);
    }
  }

  /** Trimming only cuts: what it leaves is a stretch of the string. */
  lemma TrimChars(s: string)
    ensures forall c :: c in Trim(s) ==> c in s
  {
    TrimEndLaws(TrimStart(s));
    forall c | c in Trim(s) ensures c in s {
      assert c in TrimStart(s);
    }
  }

  lemma {:induction false} TrimEndBlank(s: string)
    requires TrimEnd(s) == []
    ensures Blank(s)
  {
    if s != [] {
      TrimEndBlank(s[..|s| - 1]);
    }
  }

  lemma TrimKeepsText(s: string)
    requires s != [] && !IsSpace(s[0])
    ensures Trim(s) != []
  {
    TrimStartKeeps(s);
    if TrimEnd(s) == [] {
      TrimEndBlank(s);
    }
  }
}
