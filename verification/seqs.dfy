/** Sequence helpers shared by the model: Python's `list.remove`, the
    first-occurrence de-duplication of `dict.fromkeys`, and order-preserving
    filtering. */
module Seqs {

  datatype Option<+T> = None | Some(value: T)

  /** No element occurs twice. */
  predicate NoDup<T(==)>(s: seq<T>) {
    forall i, j :: 0 <= i < j < |s| ==> s[i] != s[j]
  }

  /** Position of the first occurrence of `x` in `s`. */
  function IndexOf<T(==)>(s: seq<T>, x: T): (r: nat)
    requires x in s
    ensures r < |s| && s[r] == x && x !in s[..r]
  {
    if s[0] == x then 0 else 1 + IndexOf(s[1..], x)
  }

  /** `list.remove(x)`: delete the first occurrence of `x`; a list without
      `x` is returned unchanged (Python raises instead; the model never
      removes an absent element). */
  function RemoveFirst<T(==)>(s: seq<T>, x: T): (r: seq<T>)
    ensures x in s ==> r == s[..IndexOf(s, x)] + s[IndexOf(s, x) + 1..]
    ensures x !in s ==> r == s
    ensures forall y :: y in r ==> y in s
  {
    if s == [] then []
    else if s[0] == x then s[1..]
    else
      var rest := RemoveFirst(s[1..], x);
      RemoveFirstCons(s, x, rest);
      [s[0]] + rest
  }

  /** The recursive step of `RemoveFirst`: a head other than `x` stays in
      front of what the removal left of the tail. */
  lemma RemoveFirstCons<T>(s: seq<T>, x: T, rest: seq<T>)
    requires s != [] && s[0] != x
    requires x in s[1..] ==> rest == s[1..][..IndexOf(s[1..], x)] + s[1..][IndexOf(s[1..], x) + 1..]
    requires x !in s[1..] ==> rest == s[1..]
    requires forall y :: y in rest ==> y in s[1..]
    ensures x in s ==> [s[0]] + rest == s[..IndexOf(s, x)] + s[IndexOf(s, x) + 1..]
    ensures x !in s ==> [s[0]] + rest == s
    ensures forall y :: y in [s[0]] + rest ==> y in s
  {
    if x in s[1..] {
      RemoveFirstConsFound(s, x, IndexOf(s[1..], x));
    } else {
      assert s == [s[0]] + s[1..];
    }
  }

  lemma RemoveFirstConsFound<T>(s: seq<T>, x: T, i: nat)
    requires s != [] && s[0] != x && x in s[1..] && i == IndexOf(s[1..], x)
    ensures x in s && IndexOf(s, x) == i + 1
    ensures [s[0]] + (s[1..][..i] + s[1..][i + 1..]) == s[..i + 1] + s[i + 2..]
  {
    assert x !in s[..i + 1] by {
      assert s[..i + 1] == [s[0]] + s[1..][..i];
    }
    IndexOfUnique(s, x, i + 1);
    ConsSplit(s, i);
  }

  /** Cutting the tail at `i` is cutting the whole at `i + 1`. */
  lemma ConsSplit<T>(s: seq<T>, i: nat)
    requires i + 1 < |s|
    ensures [s[0]] + (s[1..][..i] + s[1..][i + 1..]) == s[..i + 1] + s[i + 2..]
  {
    var t := s[1..];
    assert [s[0]] + t[..i] == s[..i + 1];
    assert t[i + 1..] == s[i + 2..];
    AppendAssoc([s[0]], t[..i], t[i + 1..]);
  }

  lemma RemoveFirstBag<T>(s: seq<T>, x: T)
    requires x in s
    ensures multiset(RemoveFirst(s, x)) + multiset{x} == multiset(s)
  {
    var i := IndexOf(s, x);
    assert s == s[..i] + [x] + s[i + 1..];
  }

  /** What is still to be handled after the head fits in what the head's
      removal left. */
  lemma RestFits<T>(ms: seq<T>, s: seq<T>, s1: seq<T>)
    requires ms != [] && multiset(ms) <= multiset(s)
    requires multiset(s1) + multiset{ms[0]} == multiset(s)
    ensures multiset(ms[1..]) <= multiset(s1)
  {
    assert ms == [ms[0]] + ms[1..];
    forall y ensures multiset(ms[1..])[y] <= multiset(s1)[y] {
      assert multiset(ms)[y] == multiset{ms[0]}[y] + multiset(ms[1..])[y];
    }
  }

  /** A loop that takes out its head first and the rest afterwards takes
      out the whole list. */
  lemma BagStep<T>(ms: seq<T>, before: multiset<T>, mid: multiset<T>, after: multiset<T>)
    requires ms != []
    requires mid + multiset{ms[0]} == before
    requires after + multiset(ms[1..]) == mid
    ensures after + multiset(ms) == before
  {
    assert ms == [ms[0]] + ms[1..];
    assert multiset(ms) == multiset{ms[0]} + multiset(ms[1..]);
  }

  /** The elements of `s` satisfying `p`, in order, each kept only at its
      first occurrence: `list(dict.fromkeys(...))` over a filtered list. */
  function Keep<T(==,!new)>(s: seq<T>, p: T -> bool): (r: seq<T>)
    ensures NoDup(r)
    ensures forall x :: x in r <==> x in s && p(x)
    decreases |s|
  {
    if s == [] then []
    else
      var init := s[..|s| - 1];
      var last := s[|s| - 1];
      var d := Keep(init, p);
      assert s == init + [last];
      if p(last) && last !in d then d + [last] else d
  }

  /** `Keep` lists what it keeps in the order of first occurrence. */
  lemma {:induction false} KeepOrder<T(!new)>(s: seq<T>, p: T -> bool)
    ensures forall i, j :: 0 <= i < j < |Keep(s, p)| ==> IndexOf(s, Keep(s, p)[i]) < IndexOf(s, Keep(s, p)[j])
    decreases |s|
  {
    if s != [] {
      var init := s[..|s| - 1];
      var last := s[|s| - 1];
      var d := Keep(init, p);
      KeepOrder(init, p);
      IndexOfPrefix(s, init);
      var r := Keep(s, p);
      if p(last) && last !in d {
        assert r == d + [last];
        assert last !in init;
        forall i, j | 0 <= i < j < |r| ensures IndexOf(s, r[i]) < IndexOf(s, r[j]) {
          assert r[i] == d[i] && r[i] in init;
          if j < |d| {
            assert r[j] == d[j] && r[j] in init;
          } else {
            assert IndexOf(init, r[i]) < |init|;
          }
        }
      } else {
        assert r == d;
        forall i, j | 0 <= i < j < |r| ensures IndexOf(s, r[i]) < IndexOf(s, r[j]) {
          assert r[i] in init && r[j] in init;
        }
      }
    }
  }

  /** The first occurrence is the only position with no earlier copy. */
  lemma IndexOfUnique<T>(s: seq<T>, x: T, k: nat)
    requires k < |s| && s[k] == x && x !in s[..k]
    ensures IndexOf(s, x) == k
  {
  }

  /** Positions found in a prefix are the positions in the whole. */
  lemma IndexOfPrefix<T>(s: seq<T>, init: seq<T>)
    requires |s| > 0 && init == s[..|s| - 1]
    ensures forall x :: x in init ==> x in s && IndexOf(s, x) == IndexOf(init, x)
    ensures s[|s| - 1] !in init ==> IndexOf(s, s[|s| - 1]) == |s| - 1
  {
    forall x | x in init
      ensures x in s && IndexOf(s, x) == IndexOf(init, x)
    {
      var k := IndexOf(init, x);
      assert s[..k] == init[..k];
      assert s[k] == init[k];
      IndexOfUnique(s, x, k);
    }
    if s[|s| - 1] !in init {
      IndexOfUnique(s, s[|s| - 1], |s| - 1);
    }
  }

  /** A duplicate-free list has every element at most once in its bag. */
  lemma NoDupBag<T>(s: seq<T>, x: T)
    requires NoDup(s)
    ensures multiset(s)[x] <= 1
  {
    if s != [] {
      NoDupBag(s[1..], x);
      assert s == [s[0]] + s[1..];
      if s[0] == x {
        assert x !in s[1..];
      }
    }
  }

  /** A duplicate-free selection from `s` fits inside `s` as a bag. */
  lemma {:induction false} SelectionBag<T>(r: seq<T>, s: seq<T>)
    requires NoDup(r)
    requires forall x :: x in r ==> x in s
    ensures multiset(r) <= multiset(s)
  {
    forall x
      ensures multiset(r)[x] <= multiset(s)[x]
    {
      NoDupBag(r, x);
      if x in r {
        assert x in multiset(s);
      }
    }
  }

  /** `Keep` listens to `p` only on elements of `s`. */
  lemma {:induction false} KeepCongruent<T(!new)>(s: seq<T>, p: T -> bool, q: T -> bool)
    requires forall x :: x in s ==> p(x) == q(x)
    ensures Keep(s, p) == Keep(s, q)
    decreases |s|
  {
    if s != [] {
      KeepCongruent(s[..|s| - 1], p, q);
    }
  }

  /** Nothing passes, nothing is kept. */
  lemma {:induction false} KeepNone<T(!new)>(s: seq<T>, p: T -> bool)
    requires forall x :: x in s ==> !p(x)
    ensures Keep(s, p) == []
    decreases |s|
  {
    if s != [] {
      KeepNone(s[..|s| - 1], p);
    }
  }

  /** A duplicate-free list all of whose elements pass is kept whole. */
  lemma {:induction false} KeepAll<T(!new)>(s: seq<T>, p: T -> bool)
    requires NoDup(s)
    requires forall x :: x in s ==> p(x)
    ensures Keep(s, p) == s
    decreases |s|
  {
    if s != [] {
      var init := s[..|s| - 1];
      var last := s[|s| - 1];
      DropLast(s);
      KeepAll(init, p);
      assert Keep(s, p) == init + [last];
      assert s == init + [last];
    }
  }

  /** A duplicate-free list is its duplicate-free front plus a last
      element that the front does not hold. */
  lemma DropLast<T>(s: seq<T>)
    requires NoDup(s) && s != []
    ensures NoDup(s[..|s| - 1])
    ensures s[|s| - 1] !in s[..|s| - 1]
    ensures forall x :: x in s[..|s| - 1] ==> x in s
  {
    var init := s[..|s| - 1];
    forall i, j | 0 <= i < j < |init| ensures init[i] != init[j] {
      assert init[i] == s[i] && init[j] == s[j];
    }
    forall k | 0 <= k < |init| ensures init[k] != s[|s| - 1] {
      assert init[k] == s[k];
    }
  }

  lemma AppendAssoc<T>(a: seq<T>, b: seq<T>, c: seq<T>)
    ensures (a + b) + c == a + (b + c)
  {
  }

  /** Removing an element that the prefix does not hold takes out the
      occurrence right after the prefix. */
  lemma RemoveFirstAfter<T>(pre: seq<T>, x: T, rest: seq<T>)
    requires x !in pre
    ensures RemoveFirst(pre + [x] + rest, x) == pre + rest
  {
    var s := pre + [x] + rest;
    assert s[..|pre|] == pre;
    IndexOfUnique(s, x, |pre|);
    assert s[|pre| + 1..] == rest;
  }

  /** The elements of `s` satisfying `p`, in order, repeats included (a list
      comprehension with a condition). */
  function Filter<T(!new)>(s: seq<T>, p: T -> bool): (r: seq<T>)
    ensures |r| <= |s|
    ensures forall x :: x in r <==> x in s && p(x)
    ensures multiset(r) <= multiset(s)
  {
    if s == [] then []
    else
      assert s == [s[0]] + s[1..];
      (if p(s[0]) then [s[0]] else []) + Filter(s[1..], p)
  }

  /** Filtering keeps every copy of a chosen element and no copy of the
      others. */
  lemma {:induction false} FilterCount<T(!new)>(s: seq<T>, p: T -> bool)
    ensures forall x :: multiset(Filter(s, p))[x] == if p(x) then multiset(s)[x] else 0
    decreases |s|
  {
    if s != [] {
      FilterCount(s[1..], p);
      assert s == [s[0]] + s[1..];
    }
  }

  /** Filtering keeps the order: filtering a concatenation concatenates the
      filtered parts. With the one-element case this pins the result. */
  lemma {:induction false} FilterAppend<T(!new)>(a: seq<T>, b: seq<T>, p: T -> bool)
    ensures Filter(a + b, p) == Filter(a, p) + Filter(b, p)
    decreases |a|
  {
    if a == [] {
      assert a + b == b;
    } else {
      var h := if p(a[0]) then [a[0]] else [];
      assert (a + b)[0] == a[0];
      assert (a + b)[1..] == a[1..] + b;
      assert Filter(a + b, p) == h + Filter(a[1..] + b, p);
      assert Filter(a, p) == h + Filter(a[1..], p);
      FilterAppend(a[1..], b, p);
      AppendAssoc(h, Filter(a[1..], p), Filter(b, p));
    }
  }

  lemma FilterOne<T(!new)>(x: T, p: T -> bool)
    ensures Filter([x], p) == if p(x) then [x] else []
  {
    assert [x][1..] == [];
  }

  lemma {:induction false} FilterCongruent<T(!new)>(s: seq<T>, p: T -> bool, q: T -> bool)
    requires forall x :: x in s ==> p(x) == q(x)
    ensures Filter(s, p) == Filter(s, q)
  {
    if s != [] {
      FilterCongruent(s[1..], p, q);
    }
  }

  /** The first element of `s` satisfying `p`, if any. */
  function First<T(==,!new)>(s: seq<T>, p: T -> bool): (r: Option<T>)
    ensures r.Some? ==> r.value in s && p(r.value)
    ensures r.None? <==> forall x :: x in s ==> !p(x)
    ensures r.Some? ==> forall i :: 0 <= i < IndexOf(s, r.value) ==> !p(s[i])
  {
    if s == [] then None
    else if p(s[0]) then Some(s[0])
    else First(s[1..], p)
  }

  /** Concatenation of a sequence of sequences (Python's `sum(..., [])`). */
  function Flatten<T>(ss: seq<seq<T>>): seq<T>
  {
    if ss == [] then [] else ss[0] + Flatten(ss[1..])
  }
}
