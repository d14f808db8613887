/** Sequence facts the verifier is slow to find by itself, and picking places by a test. */
module Sequences {
  import opened Options

  lemma Assoc<T>(a: seq<T>, b: seq<T>, c: seq<T>)
    ensures (a + b) + c == a + (b + c)
  {
  }

  lemma AssocFour<T>(a: seq<T>, b: seq<T>, c: seq<T>, d: seq<T>)
    ensures (a + b + c) + d == a + (b + (c + d))
  {
  }

  lemma SplitAt<T>(s: seq<T>, i: nat)
    requires i < |s|
    ensures s == s[..i] + ([s[i]] + s[i + 1..])
  {
  }

  ghost predicate Increasing(at: seq<nat>) {
    forall i, j | 0 <= i < j < |at| :: at[i] < at[j]
  }

  /** The places from `lo` to before `hi` that pass the test, in order. */
  ghost function Picks(lo: nat, hi: nat, test: nat -> bool): seq<nat>
    requires lo <= hi
    decreases hi - lo
  {
    if lo == hi then [] else (if test(lo) then [lo] else []) + Picks(lo + 1, hi, test)
  }

  lemma {:induction false} PicksPass(lo: nat, hi: nat, test: nat -> bool, j: nat)
    requires lo <= hi
    ensures j in Picks(lo, hi, test) <==> lo <= j < hi && test(j)
    decreases hi - lo
  {
    if lo < hi {
      PicksPass(lo + 1, hi, test, j);
      var head := if test(lo) then [lo] else [];
      assert j in head + Picks(lo + 1, hi, test) <==> j in head || j in Picks(lo + 1, hi, test);
    }
  }

  lemma PrependIncreasing(x: nat, at: seq<nat>)
    requires Increasing(at) && forall y <- at :: x < y
    ensures Increasing([x] + at)
  {
    var all := [x] + at;
    forall i, j | 0 <= i < j < |all| ensures all[i] < all[j] {
      assert all[j] == at[j - 1];
      assert i > 0 ==> all[i] == at[i - 1];
      assert at[j - 1] in at;
    }
  }

  lemma {:induction false} PicksIncreasing(lo: nat, hi: nat, test: nat -> bool)
    requires lo <= hi
    ensures Increasing(Picks(lo, hi, test))
    decreases hi - lo
  {
    if lo < hi {
      hide Increasing;
      var rest := Picks(lo + 1, hi, test);
      PicksIncreasing(lo + 1, hi, test);
      forall y <- rest ensures lo < y {
        PicksPass(lo + 1, hi, test, y);
      }
      PrependIncreasing(lo, rest);
      assert [] + rest == rest;
    } else {
      assert Picks(lo, hi, test) == [];
    }
  }

  /** They are increasing, pass the test, and none that passes is missing. */
  lemma PicksLaws(lo: nat, hi: nat, test: nat -> bool)
    requires lo <= hi
    ensures var at := Picks(lo, hi, test);
            && Increasing(at)
            && (forall i | 0 <= i < |at| :: lo <= at[i] < hi && test(at[i]))
            && (forall j | lo <= j < hi && test(j) :: j in at)
  {
    PicksIncreasing(lo, hi, test);
    var at := Picks(lo, hi, test);
    hide Picks, Increasing;
    forall i | 0 <= i < |at| ensures lo <= at[i] < hi && test(at[i]) {
      PicksPass(lo, hi, test, at[i]);
    }
    forall j | lo <= j < hi && test(j) ensures j in at {
      PicksPass(lo, hi, test, j);
    }
  }

  /** `out` is the elements of `s` at the increasing places `at`, which are all the places that pass. */
  ghost predicate ChosenAt<T>(s: seq<T>, out: seq<T>, pass: T -> bool, at: seq<nat>) {
    && |at| == |out|
    && Increasing(at)
    && (forall i | 0 <= i < |at| :: at[i] < |s| && pass(s[at[i]]) && out[i] == s[at[i]])
    && (forall j | 0 <= j < |s| && pass(s[j]) :: j in at)
  }

  /** `out` is exactly the elements of `s` that pass, in order and as often as they occur. */
  ghost predicate Chosen<T>(s: seq<T>, out: seq<T>, pass: T -> bool) {
    exists at :: ChosenAt(s, out, pass, at)
  }

  /** What `f` makes of the elements, where it makes anything. */
  function FilterMap<A, B>(s: seq<A>, f: A -> Option<B>): seq<B> {
    if s == [] then [] else (if f(s[0]).Some? then [f(s[0]).value] else []) + FilterMap(s[1..], f)
  }

  ghost predicate MapsAt<A, B>(s: seq<A>, out: seq<B>, f: A -> Option<B>, at: seq<nat>) {
    && |at| == |out|
    && Increasing(at)
    && (forall i | 0 <= i < |at| :: at[i] < |s| && f(s[at[i]]) == Some(out[i]))
    && (forall j | 0 <= j < |s| && f(s[j]).Some? :: j in at)
  }

  function Made<A, B>(s: seq<A>, f: A -> Option<B>): nat -> bool {
    (j: nat) => j < |s| && f(s[j]).Some?
  }

  lemma {:induction false} FilterMapPlaced<A, B>(s: seq<A>, f: A -> Option<B>, lo: nat)
    requires lo <= |s|
    ensures var at, out := Picks(lo, |s|, Made(s, f)), FilterMap(s[lo..], f);
            |out| == |at| && forall i | 0 <= i < |at| :: at[i] < |s| && f(s[at[i]]) == Some(out[i])
    decreases |s| - lo
  {
    if lo < |s| {
      FilterMapPlaced(s, f, lo + 1);
      assert s[lo..][1..] == s[lo + 1..] && s[lo..][0] == s[lo];
      assert FilterMap(s[lo..], f) == (if f(s[lo]).Some? then [f(s[lo]).value] else []) + FilterMap(s[lo + 1..], f);
    }
  }

  lemma FilterMapPlaces<A, B>(s: seq<A>, f: A -> Option<B>) returns (at: seq<nat>)
    ensures MapsAt(s, FilterMap(s, f), f, at)
  {
    hide FilterMap, Picks, Increasing;
    at := Picks(0, |s|, Made(s, f));
    assert s[0..] == s;
    FilterMapPlaced(s, f, 0);
    PicksLaws(0, |s|, Made(s, f));
    forall j | 0 <= j < |s| && f(s[j]).Some? ensures j in at {
      assert Made(s, f)(j);
    }
  }

  function Keeping<T>(pass: T -> bool): T -> Option<T> {
    (x: T) => if pass(x) then Some(x) else None
  }

  lemma FilterMapChooses<T>(s: seq<T>, pass: T -> bool)
    ensures Chosen(s, FilterMap(s, Keeping(pass)), pass)
  {
    hide FilterMap, Increasing;
    var at := FilterMapPlaces(s, Keeping(pass));
    assert ChosenAt(s, FilterMap(s, Keeping(pass)), pass, at);
  }
}
