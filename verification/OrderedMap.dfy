/**
 * The host language's `Map` with string keys: entries in insertion order, one per key.
 * Setting a key that is present keeps its place; setting a new key appends it.
 */
module OrderedMap {
  import opened Options
  import Sequences

  datatype Entry<+V> = Entry(key: string, value: V)

  function Get<V>(m: seq<Entry<V>>, k: string): Option<V> {
    if m == [] then None
    else if m[0].key == k then Some(m[0].value)
    else Get(m[1..], k)
  }

  predicate Has<V>(m: seq<Entry<V>>, k: string) {
    Get(m, k).Some?
  }

  /** No key twice. */
  predicate Distinct<V>(m: seq<Entry<V>>) {
    m == [] || (!Has(m[1..], m[0].key) && Distinct(m[1..]))
  }

  function Put<V>(m: seq<Entry<V>>, k: string, v: V): seq<Entry<V>> {
    if m == [] then [Entry(k, v)]
    else if m[0].key == k then [Entry(k, v)] + m[1..]
    else [m[0]] + Put(m[1..], k, v)
  }

  function Remove<V>(m: seq<Entry<V>>, k: string): seq<Entry<V>> {
    if m == [] then []
    else if m[0].key == k then m[1..]
    else [m[0]] + Remove(m[1..], k)
  }

  function RemoveAll<V>(m: seq<Entry<V>>, gone: seq<Entry<V>>): seq<Entry<V>>
    decreases |gone|
  {
    if gone == [] then m else RemoveAll(Remove(m, gone[0].key), gone[1..])
  }

  /** The entries whose value passes the test, in order. */
  function Filter<V>(m: seq<Entry<V>>, keep: V -> bool): seq<Entry<V>> {
    if m == [] then []
    else if keep(m[0].value) then [m[0]] + Filter(m[1..], keep)
    else Filter(m[1..], keep)
  }

  lemma {:induction false} PutLaws<V>(m: seq<Entry<V>>, k: string, v: V, other: string)
    ensures Get(Put(m, k, v), other) == if other == k then Some(v) else Get(m, other)
    ensures |Put(m, k, v)| == |m| + if Has(m, k) then 0 else 1
    ensures !Has(m, k) ==> Put(m, k, v) == m + [Entry(k, v)]
  {
    if m != [] {
      PutLaws(m[1..], k, v, other);
    }
  }

  lemma {:induction false} PutDistinct<V>(m: seq<Entry<V>>, k: string, v: V)
    requires Distinct(m)
    ensures Distinct(Put(m, k, v))
  {
    if m != [] {
      PutDistinct(m[1..], k, v);
      PutLaws(m[1..], k, v, m[0].key);
    }
  }

  lemma {:induction false} RemoveLaws<V>(m: seq<Entry<V>>, k: string, other: string)
    requires Distinct(m)
    ensures Get(Remove(m, k), other) == if other == k then None else Get(m, other)
    ensures |Remove(m, k)| == |m| - if Has(m, k) then 1 else 0
    ensures !Has(m, k) ==> Remove(m, k) == m
  {
    if m != [] {
      RemoveLaws(m[1..], k, other);
    }
  }

  lemma {:induction false} RemoveDistinct<V>(m: seq<Entry<V>>, k: string)
    requires Distinct(m)
    ensures Distinct(Remove(m, k))
  {
    if m != [] {
      RemoveDistinct(m[1..], k);
      RemoveLaws(m[1..], k, m[0].key);
    }
  }

  lemma {:induction false} RemoveAllLaws<V>(m: seq<Entry<V>>, gone: seq<Entry<V>>, k: string)
    requires Distinct(m)
    ensures Distinct(RemoveAll(m, gone))
    ensures Get(RemoveAll(m, gone), k) == if Has(gone, k) then None else Get(m, k)
    decreases |gone|
  {
    if gone != [] {
      RemoveDistinct(m, gone[0].key);
      RemoveLaws(m, gone[0].key, k);
      RemoveAllLaws(Remove(m, gone[0].key), gone[1..], k);
    }
  }

  /** Removing entries that are all there removes exactly that many. */
  lemma {:induction false} RemoveAllSize<V>(m: seq<Entry<V>>, gone: seq<Entry<V>>)
    requires Distinct(m) && Distinct(gone) && forall e <- gone :: Has(m, e.key)
    ensures |RemoveAll(m, gone)| == |m| - |gone|
    decreases |gone|
  {
    if gone != [] {
      var k := gone[0].key;
      assert gone[0] in gone;
      RemoveDistinct(m, k);
      RemoveLaws(m, k, k);
      forall e <- gone[1..] ensures Has(Remove(m, k), e.key) {
        assert e in gone;
        EntryHas(gone[1..], e);
        RemoveLaws(m, k, e.key);
      }
      RemoveAllSize(Remove(m, k), gone[1..]);
    }
  }

  lemma {:induction false} EntryHas<V>(m: seq<Entry<V>>, e: Entry<V>)
    requires e in m
    ensures Has(m, e.key)
    ensures Distinct(m) ==> Get(m, e.key) == Some(e.value)
  {
    if m[0] != e {
      EntryHas(m[1..], e);
    }
  }

  lemma {:induction false} GetEntry<V>(m: seq<Entry<V>>, k: string)
    requires Has(m, k)
    ensures Entry(k, Get(m, k).value) in m
  {
    if m[0].key != k {
      GetEntry(m[1..], k);
    }
  }

  lemma {:induction false} GetAppend<V>(a: seq<Entry<V>>, b: seq<Entry<V>>, k: string)
    ensures Get(a + b, k) == if Has(a, k) then Get(a, k) else Get(b, k)
  {
    if a == [] {
      assert a + b == b;
    } else {
      assert (a + b)[1..] == a[1..] + b;
      GetAppend(a[1..], b, k);
    }
  }

  lemma {:induction false} DistinctAppend<V>(a: seq<Entry<V>>, b: seq<Entry<V>>)
    ensures Distinct(a + b) <==> Distinct(a) && Distinct(b) && forall e <- a :: !Has(b, e.key)
  {
    if a == [] {
      assert a + b == b;
    } else {
      assert (a + b)[1..] == a[1..] + b;
      assert a == [a[0]] + a[1..];
      DistinctAppend(a[1..], b);
      GetAppend(a[1..], b, a[0].key);
    }
  }

  lemma {:induction false} RemoveAppend<V>(a: seq<Entry<V>>, b: seq<Entry<V>>, k: string)
    requires !Has(a, k)
    ensures Remove(a + b, k) == a + Remove(b, k)
  {
    if a == [] {
      assert a + b == b;
    } else {
      assert (a + b)[1..] == a[1..] + b;
      RemoveAppend(a[1..], b, k);
    }
  }

  lemma {:induction false} RemoveSize<V>(m: seq<Entry<V>>, k: string)
    ensures |Remove(m, k)| == |m| - if Has(m, k) then 1 else 0
  {
    if m != [] {
      RemoveSize(m[1..], k);
    }
  }

  lemma {:induction false} RemoveSubset<V>(m: seq<Entry<V>>, k: string)
    ensures forall e <- Remove(m, k) :: e in m
  {
    if m != [] {
      RemoveSubset(m[1..], k);
    }
  }

  lemma {:induction false} FilterLaws<V>(m: seq<Entry<V>>, keep: V -> bool, k: string)
    requires Distinct(m)
    ensures Distinct(Filter(m, keep)) && |Filter(m, keep)| <= |m|
    ensures Get(Filter(m, keep), k) == if Has(m, k) && !keep(Get(m, k).value) then None else Get(m, k)
    ensures forall e <- Filter(m, keep) :: e in m && keep(e.value)
  {
    if m != [] {
      FilterLaws(m[1..], keep, k);
      FilterLaws(m[1..], keep, m[0].key);
    }
  }

  lemma {:induction false} FilterAppend<V>(a: seq<Entry<V>>, b: seq<Entry<V>>, keep: V -> bool)
    ensures Filter(a + b, keep) == Filter(a, keep) + Filter(b, keep)
  {
    if a == [] {
      assert a + b == b;
    } else {
      assert (a + b)[1..] == a[1..] + b;
      FilterAppend(a[1..], b, keep);
    }
  }

  lemma FilterOne<V>(e: Entry<V>, keep: V -> bool)
    ensures Filter([e], keep) == if keep(e.value) then [e] else []
  {
  }

  /** Visiting the entries in order and deleting some on the way leaves exactly the others. */
  method DeleteUnless<V>(m: seq<Entry<V>>, keep: V -> bool) returns (rest: seq<Entry<V>>)
    requires Distinct(m)
    ensures rest == Filter(m, keep)
  {
    hide Distinct, Filter;
    rest := m;
    ghost var kept: seq<Entry<V>> := [];
    FilterNone(keep);
    for i := 0 to |m|
      invariant rest == kept + m[i..] && Distinct(rest)
      invariant kept == Filter(m[..i], keep)
    {
      assert m[i..] == [m[i]] + m[i + 1..] && m[..i + 1] == m[..i] + [m[i]];
      DeleteStep(kept, m[i], m[i + 1..]);
      FilterAppend(m[..i], [m[i]], keep);
      FilterOne(m[i], keep);
      if !keep(m[i].value) {
        RemoveDistinct(rest, m[i].key);
        rest := Remove(rest, m[i].key);
        assert kept + [] == kept;
      } else {
        kept := kept + [m[i]];
      }
    }
    assert m[..|m|] == m;
  }

  lemma FilterNone<V>(keep: V -> bool)
    ensures Filter<V>([], keep) == []
  {
  }

  lemma DeleteStep<V>(kept: seq<Entry<V>>, e: Entry<V>, tail: seq<Entry<V>>)
    requires Distinct(kept + ([e] + tail))
    ensures kept + ([e] + tail) == kept + [e] + tail
    ensures Remove(kept + ([e] + tail), e.key) == kept + tail
  {
    Sequences.Assoc(kept, [e], tail);
    assert ([e] + tail)[1..] == tail;
    DistinctAppend(kept, [e] + tail);
    if Has(kept, e.key) {
      GetEntry(kept, e.key);
    }
    RemoveAppend(kept, [e] + tail, e.key);
  }

  /** Two maps with the same keys have the same size. */
  lemma {:induction false} SameKeysSameSize<V>(a: seq<Entry<V>>, b: seq<Entry<V>>)
    requires Distinct(a) && Distinct(b)
    requires forall k :: Has(a, k) <==> Has(b, k)
    ensures |a| == |b|
  {
    if a == [] {
      if b != [] {
        assert Has(b, b[0].key);
      }
    } else {
      var k := a[0].key;
      assert Has(a, k);
      RemoveDistinct(b, k);
      RemoveLaws(b, k, k);
      forall other ensures Has(a[1..], other) <==> Has(Remove(b, k), other) {
        RemoveLaws(b, k, other);
        assert Has(a, other) <==> Has(b, other);
      }
      SameKeysSameSize(a[1..], Remove(b, k));
    }
  }
}
