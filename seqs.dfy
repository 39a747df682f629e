/** Sequence helpers for the table operations: counting, filtering, concatenation, de-duplication. */
module Seqs {
  import opened Wrappers

  /** Number of elements of `s` that satisfy `p` (`len(df[mask])`). */
  function Count<T>(s: seq<T>, p: T -> bool): (n: nat)
    ensures n <= |s|
  {
    if s == [] then 0 else Count(s[..|s| - 1], p) + (if p(s[|s| - 1]) then 1 else 0)
  }

  /** The elements of `s` that satisfy `p`, in their original order (`df[mask]`). */
  function Filter<T>(s: seq<T>, p: T -> bool): (r: seq<T>)
    ensures |r| == Count(s, p)
    ensures forall i :: 0 <= i < |r| ==> p(r[i])
  {
    if s == [] then [] else Filter(s[..|s| - 1], p) + (if p(s[|s| - 1]) then [s[|s| - 1]] else [])
  }

  lemma {:induction false} FilterAppend<T>(a: seq<T>, b: seq<T>, p: T -> bool)
    ensures Filter(a + b, p) == Filter(a, p) + Filter(b, p)
    decreases |b|
  {
    if b != [] {
      var b' := b[..|b| - 1];
      assert (a + b)[..|a + b| - 1] == a + b';
      FilterAppend(a, b', p);
    } else {
      assert a + b == a;
    }
  }

  lemma {:induction false} CountAppend<T>(a: seq<T>, b: seq<T>, p: T -> bool)
    ensures Count(a + b, p) == Count(a, p) + Count(b, p)
  {
    FilterAppend(a, b, p);
  }

  /** Filtering keeps every element that passes, with its multiplicity, and nothing else. */
  lemma {:induction false} FilterMultiset<T>(s: seq<T>, p: T -> bool)
    ensures forall x {:trigger multiset(Filter(s, p))[x]} ::
      multiset(Filter(s, p))[x] == if p(x) then multiset(s)[x] else 0
  {
    if s != [] {
      var s' := s[..|s| - 1];
      FilterMultiset(s', p);
      assert s == s' + [s[|s| - 1]];
    }
  }

  /** Two predicates that agree on every element of `s` select the same elements. */
  lemma {:induction false} FilterCongruent<T>(s: seq<T>, p: T -> bool, q: T -> bool)
    requires forall i :: 0 <= i < |s| ==> p(s[i]) == q(s[i])
    ensures Filter(s, p) == Filter(s, q)
  {
    if s != [] {
      FilterCongruent(s[..|s| - 1], p, q);
    }
  }

  /** Sum of the lengths of the parts. */
  function TotalLength<T>(parts: seq<seq<T>>): nat {
    if parts == [] then 0 else TotalLength(parts[..|parts| - 1]) + |parts[|parts| - 1]|
  }

  /** The parts one after the other (`pd.concat(parts, ignore_index=True)`). */
  function Concat<T>(parts: seq<seq<T>>): (r: seq<T>)
    ensures |r| == TotalLength(parts)
  {
    if parts == [] then [] else Concat(parts[..|parts| - 1]) + parts[|parts| - 1]
  }

  /** A property every element of every part has, every element of the concatenation has. */
  lemma {:induction false} ConcatAll<T>(parts: seq<seq<T>>, p: T -> bool)
    requires forall k, j :: 0 <= k < |parts| && 0 <= j < |parts[k]| ==> p(parts[k][j])
    ensures forall i :: 0 <= i < |Concat(parts)| ==> p(Concat(parts)[i])
  {
    if parts != [] {
      var n := |parts| - 1;
      ConcatAll(parts[..n], p);
      var front := Concat(parts[..n]);
      forall i | 0 <= i < |Concat(parts)|
        ensures p(Concat(parts)[i])
      {
        if i >= |front| {
          assert Concat(parts)[i] == parts[n][i - |front|];
        }
      }
    }
  }

  /** Element `k` of part `i` sits in the concatenation after every element of the parts before it. */
  lemma {:induction false} ConcatAt<T>(parts: seq<seq<T>>, i: nat, k: nat)
    requires i < |parts| && k < |parts[i]|
    ensures TotalLength(parts[..i]) + k < |Concat(parts)|
    ensures Concat(parts)[TotalLength(parts[..i]) + k] == parts[i][k]
  {
    var n := |parts| - 1;
    assert parts[..n][..i] == parts[..i];
    if i < n {
      ConcatAt(parts[..n], i, k);
    } else {
      assert parts[..i] == parts[..n];
    }
  }

  /** Counting over a concatenation adds up the counts over the parts. */
  lemma {:induction false} CountConcat<T>(parts: seq<seq<T>>, p: T -> bool)
    ensures Count(Concat(parts), p) == SumCounts(parts, p)
  {
    if parts != [] {
      CountConcat(parts[..|parts| - 1], p);
      CountAppend(Concat(parts[..|parts| - 1]), parts[|parts| - 1], p);
    }
  }

  function SumCounts<T>(parts: seq<seq<T>>, p: T -> bool): nat {
    if parts == [] then 0 else SumCounts(parts[..|parts| - 1], p) + Count(parts[|parts| - 1], p)
  }

  predicate Distinct<T(==)>(s: seq<T>) {
    forall i, j :: 0 <= i < j < |s| ==> s[i] != s[j]
  }

  /** `drop_duplicates()`: the first occurrence of each element, in order. */
  function Dedup<T(==)>(s: seq<T>): (r: seq<T>)
    ensures Distinct(r)
    ensures forall i :: 0 <= i < |r| ==> r[i] in s
    ensures forall i :: 0 <= i < |s| ==> s[i] in r
  {
    if s == [] then []
    else
      var d := Dedup(s[..|s| - 1]);
      if s[|s| - 1] in s[..|s| - 1] then d else d + [s[|s| - 1]]
  }

  /** Position of the first occurrence of `x` in `s`. */
  function FirstIndex<T(==)>(s: seq<T>, x: T): (i: nat)
    requires x in s
    ensures i < |s| && s[i] == x
    ensures forall k :: 0 <= k < i ==> s[k] != x
  {
    if s[0] == x then 0 else 1 + FirstIndex(s[1..], x)
  }

  /** An element's first occurrence in a prefix is its first occurrence in the whole sequence. */
  lemma FirstIndexPrefix<T>(s: seq<T>, n: nat, x: T)
    requires n <= |s| && x in s[..n]
    ensures x in s && FirstIndex(s, x) == FirstIndex(s[..n], x)
  {
    var b := FirstIndex(s[..n], x);
    assert s[b] == s[..n][b] == x;
    var a := FirstIndex(s, x);
    assert a <= b;
    assert forall k :: 0 <= k < b ==> s[k] == s[..n][k];
  }

  /**
   * `Dedup` keeps the elements in the order of their first occurrences: of two kept elements,
   * the one that occurs first in the input comes first.
   */
  lemma {:induction false} DedupOrder<T>(s: seq<T>)
    ensures forall i, j :: 0 <= i < j < |Dedup(s)| ==> FirstIndex(s, Dedup(s)[i]) < FirstIndex(s, Dedup(s)[j])
  {
    if s != [] {
      var s' := s[..|s| - 1];
      var last := s[|s| - 1];
      DedupOrder(s');
      var d := Dedup(s');
      forall k | 0 <= k < |d|
        ensures FirstIndex(s, d[k]) == FirstIndex(s', d[k])
      {
        FirstIndexPrefix(s, |s| - 1, d[k]);
      }
      if last !in s' {
        assert FirstIndex(s, last) == |s| - 1 by {
          assert forall k :: 0 <= k < |s| - 1 ==> s[k] == s'[k];
        }
      }
    }
  }

  /** A sequence without repeats is left as it is. */
  lemma {:induction false} DedupDistinct<T>(s: seq<T>)
    requires Distinct(s)
    ensures Dedup(s) == s
  {
    if s != [] {
      var s' := s[..|s| - 1];
      DedupDistinct(s');
      assert s == s' + [s[|s| - 1]];
    }
  }
  /** Some element satisfies `p` exactly when the count is positive. */
  lemma {:induction false} CountPositive<T>(s: seq<T>, p: T -> bool)
    ensures Count(s, p) > 0 <==> exists i :: 0 <= i < |s| && p(s[i])
  {
    if s != [] {
      var s' := s[..|s| - 1];
      CountPositive(s', p);
      if Count(s', p) > 0 {
        var i :| 0 <= i < |s'| && p(s'[i]);
        assert p(s[i]);
      }
    }
  }

  /** At least two elements satisfy `p` exactly when two distinct positions do. */
  lemma CountAtLeastTwo<T>(s: seq<T>, p: T -> bool)
    ensures Count(s, p) >= 2 <==> exists i, j :: 0 <= i < j < |s| && p(s[i]) && p(s[j])
  {
    if Count(s, p) >= 2 {
      var i, j := TwoWitnesses(s, p);
    } else if exists i, j :: 0 <= i < j < |s| && p(s[i]) && p(s[j]) {
      var i, j :| 0 <= i < j < |s| && p(s[i]) && p(s[j]);
      TwoCounted(s, p, i, j);
    }
  }

  lemma {:induction false} TwoWitnesses<T>(s: seq<T>, p: T -> bool) returns (i: nat, j: nat)
    requires Count(s, p) >= 2
    ensures i < j < |s| && p(s[i]) && p(s[j])
  {
    var n := |s| - 1;
    var s' := s[..n];
    assert Count(s, p) == Count(s', p) + (if p(s[n]) then 1 else 0);
    if p(s[n]) {
      CountPositive(s', p);
      i :| 0 <= i < |s'| && p(s'[i]);
      j := n;
    } else {
      i, j := TwoWitnesses(s', p);
    }
  }

  lemma {:induction false} TwoCounted<T>(s: seq<T>, p: T -> bool, i: nat, j: nat)
    requires i < j < |s| && p(s[i]) && p(s[j])
    ensures Count(s, p) >= 2
  {
    var n := |s| - 1;
    var s' := s[..n];
    assert Count(s, p) == Count(s', p) + (if p(s[n]) then 1 else 0);
    if j < n {
      TwoCounted(s', p, i, j);
    } else {
      CountPositive(s', p);
      assert p(s'[i]);
    }
  }

  /** Filtering by `p` loses nothing that `q` counts when every `q`-element passes `p`. */
  lemma {:induction false} CountFilterKeeps<T>(s: seq<T>, p: T -> bool, q: T -> bool)
    requires forall i :: 0 <= i < |s| && q(s[i]) ==> p(s[i])
    ensures Count(Filter(s, p), q) == Count(s, q)
  {
    if s != [] {
      var s' := s[..|s| - 1];
      CountFilterKeeps(s', p, q);
      var last := s[|s| - 1];
      CountAppend(Filter(s', p), if p(last) then [last] else [], q);
      if p(last) {
        assert [last][..0] == [];
      }
    }
  }

  /** `f` applied to each element, in order (`Series.apply`, a row-by-row loop). */
  function Map<A, B>(xs: seq<A>, f: A -> B): (r: seq<B>)
    ensures |r| == |xs|
    ensures forall i :: 0 <= i < |xs| ==> r[i] == f(xs[i])
  {
    if xs == [] then [] else Map(xs[..|xs| - 1], f) + [f(xs[|xs| - 1])]
  }

  lemma MapAppend<A, B>(a: seq<A>, b: seq<A>, f: A -> B)
    ensures Map(a + b, f) == Map(a, f) + Map(b, f)
  {
    assert forall i :: |a| <= i < |a + b| ==> (a + b)[i] == b[i - |a|];
  }

  /** Counting mapped elements by `p` is counting the originals by `q` when `q` says what `p` says of the image. */
  lemma {:induction false} CountMap<A, B>(xs: seq<A>, f: A -> B, p: B -> bool, q: A -> bool)
    requires forall i :: 0 <= i < |xs| ==> p(f(xs[i])) == q(xs[i])
    ensures Count(Map(xs, f), p) == Count(xs, q)
  {
    if xs != [] {
      CountMap(xs[..|xs| - 1], f, p, q);
    }
  }

  /** The values `f` gives, in order, skipping the elements it gives none for (a loop with a guarded append). */
  function FilterMap<A, B>(xs: seq<A>, f: A -> Option<B>): seq<B> {
    if xs == [] then []
    else
      var last := f(xs[|xs| - 1]);
      FilterMap(xs[..|xs| - 1], f) + (if last.Some? then [last.value] else [])
  }

  /** One more element: its value, if any, comes last. */
  lemma FilterMapSnoc<A, B>(xs: seq<A>, i: nat, f: A -> Option<B>)
    requires i < |xs|
    ensures FilterMap(xs[..i + 1], f) == FilterMap(xs[..i], f) + (if f(xs[i]).Some? then [f(xs[i]).value] else [])
  {
    assert xs[..i + 1][..i] == xs[..i];
  }

  /** The elements `f` gives a value for. */
  function Defined<A, B>(f: A -> Option<B>): A -> bool {
    x => f(x).Some?
  }

  lemma {:induction false} FilterMapAppend<A, B>(a: seq<A>, b: seq<A>, f: A -> Option<B>)
    ensures FilterMap(a + b, f) == FilterMap(a, f) + FilterMap(b, f)
    decreases |b|
  {
    if b != [] {
      assert (a + b)[..|a + b| - 1] == a + b[..|b| - 1];
      FilterMapAppend(a, b[..|b| - 1], f);
    } else {
      assert a + b == a;
    }
  }

  /** An output is the value of some element. */
  lemma {:induction false} FilterMapFrom<A, B>(xs: seq<A>, f: A -> Option<B>, y: B) returns (i: nat)
    requires y in FilterMap(xs, f)
    ensures i < |xs| && f(xs[i]) == Some(y)
  {
    var n := |xs| - 1;
    var last := f(xs[n]);
    if last.Some? && y == last.value {
      i := n;
    } else {
      i := FilterMapFrom(xs[..n], f, y);
      assert xs[..n][i] == xs[i];
    }
  }

  /** One output per element `f` is defined on; each output is the value of some element; every such value is output. */
  lemma FilterMapSpec<A, B>(xs: seq<A>, f: A -> Option<B>)
    ensures |FilterMap(xs, f)| == Count(xs, Defined(f))
    ensures forall j :: 0 <= j < |FilterMap(xs, f)| ==>
      exists i :: 0 <= i < |xs| && f(xs[i]) == Some(FilterMap(xs, f)[j])
    ensures forall i :: 0 <= i < |xs| && f(xs[i]).Some? ==> f(xs[i]).value in FilterMap(xs, f)
  {
    FilterMapCount(xs, f);
    var out := FilterMap(xs, f);
    forall j | 0 <= j < |out|
      ensures exists i :: 0 <= i < |xs| && f(xs[i]) == Some(out[j])
    {
      var i := FilterMapFrom(xs, f, out[j]);
    }
    forall i | 0 <= i < |xs| && f(xs[i]).Some?
      ensures f(xs[i]).value in out
    {
      FilterMapIn(xs, f, i);
    }
  }

  lemma {:induction false} FilterMapCount<A, B>(xs: seq<A>, f: A -> Option<B>)
    ensures |FilterMap(xs, f)| == Count(xs, Defined(f))
  {
    if xs != [] {
      FilterMapCount(xs[..|xs| - 1], f);
    }
  }

  /** The value of an element `f` is defined on is output. */
  lemma {:induction false} FilterMapIn<A, B>(xs: seq<A>, f: A -> Option<B>, i: nat)
    requires i < |xs| && f(xs[i]).Some?
    ensures f(xs[i]).value in FilterMap(xs, f)
  {
    var n := |xs| - 1;
    if i < n {
      FilterMapIn(xs[..n], f, i);
      assert xs[..n][i] == xs[i];
    }
  }

  /** `f` applied to each element in order, stopping at the first error (a loop that may raise). */
  function MapResult<A, B, E>(xs: seq<A>, f: A -> Result<B, E>): Result<seq<B>, E> {
    if xs == [] then Ok([])
    else
      match MapResult(xs[..|xs| - 1], f)
      case Err(e) => Err(e)
      case Ok(prev) =>
        match f(xs[|xs| - 1])
        case Err(e) => Err(e)
        case Ok(y) => Ok(prev + [y])
  }

  /** On success there is one result per element, each the element's own. */
  lemma {:induction false} MapResultOk<A, B, E>(xs: seq<A>, f: A -> Result<B, E>)
    ensures MapResult(xs, f).Ok? ==>
      |MapResult(xs, f).value| == |xs|
      && forall k :: 0 <= k < |xs| ==> f(xs[k]) == Ok(MapResult(xs, f).value[k])
  {
    if xs != [] && MapResult(xs, f).Ok? {
      var n := |xs| - 1;
      MapResultOk(xs[..n], f);
      var prev := MapResult(xs[..n], f).value;
      var ys := MapResult(xs, f).value;
      assert ys == prev + [f(xs[n]).value];
      forall k | 0 <= k < |xs|
        ensures f(xs[k]) == Ok(ys[k])
      {
        if k < n {
          assert xs[k] == xs[..n][k];
        }
      }
    }
  }

  /** The mapping fails exactly when some element fails, and then with the error of the first one. */
  lemma {:induction false} MapResultErr<A, B, E>(xs: seq<A>, f: A -> Result<B, E>) returns (k: nat)
    ensures MapResult(xs, f).Err? <==> exists j :: 0 <= j < |xs| && f(xs[j]).Err?
    ensures MapResult(xs, f).Err? ==>
      k < |xs| && f(xs[k]) == Err(MapResult(xs, f).error) && forall j :: 0 <= j < k ==> f(xs[j]).Ok?
  {
    k := 0;
    if xs != [] {
      var n := |xs| - 1;
      var k' := MapResultErr(xs[..n], f);
      assert forall j :: 0 <= j < n ==> xs[..n][j] == xs[j];
      if MapResult(xs[..n], f).Err? {
        k := k';
      } else {
        MapResultOk(xs[..n], f);
        k := n;
      }
    }
  }

  /** One more element after a successful prefix: its error ends the mapping, its value is appended. */
  lemma MapResultStep<A, B, E>(xs: seq<A>, i: nat, f: A -> Result<B, E>, prev: seq<B>)
    requires i < |xs| && MapResult(xs[..i], f) == Ok(prev)
    ensures f(xs[i]).Err? ==> MapResult(xs, f) == Err(f(xs[i]).error)
    ensures f(xs[i]).Ok? ==> MapResult(xs[..i + 1], f) == Ok(prev + [f(xs[i]).value])
  {
    assert xs[..i + 1][..i] == xs[..i];
    if f(xs[i]).Err? {
      MapResultErrPersists(xs, i + 1, f);
    }
  }

  /** An error on a prefix is the error of the whole mapping. */
  lemma {:induction false} MapResultErrPersists<A, B, E>(xs: seq<A>, i: nat, f: A -> Result<B, E>)
    requires i <= |xs|
    requires MapResult(xs[..i], f).Err?
    ensures MapResult(xs, f) == MapResult(xs[..i], f)
    decreases |xs| - i
  {
    if i < |xs| {
      assert xs[..i + 1][..i] == xs[..i];
      MapResultErrPersists(xs, i + 1, f);
    } else {
      assert xs[..i] == xs;
    }
  }
}
