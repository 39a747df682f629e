/**
 * Python's ordering of strings and of tuples/lists of strings, and sorting by a key
 * (`sorted(...)`, `DataFrame.sort_values([...])`).
 */
module Order {

  /** `lt` is irreflexive, transitive and relates any two distinct values one way or the other. */
  ghost predicate StrictTotalOrder<T(!new)>(lt: (T, T) -> bool) {
    && (forall a :: !lt(a, a))
    && (forall a, b, c :: lt(a, b) && lt(b, c) ==> lt(a, c))
    && (forall a, b :: a != b ==> lt(a, b) || lt(b, a))
  }

  /**
   * Lexicographic order on sequences: the first differing position decides, and a proper
   * prefix comes first. This is how Python compares strings and lists.
   */
  function LexLt<T(==)>(a: seq<T>, b: seq<T>, lt: (T, T) -> bool): bool
    decreases |a|
  {
    if a == [] then b != []
    else if b == [] then false
    else if a[0] == b[0] then LexLt(a[1..], b[1..], lt)
    else lt(a[0], b[0])
  }

  lemma {:induction false} LexLtIrreflexive<T>(a: seq<T>, lt: (T, T) -> bool)
    ensures !LexLt(a, a, lt)
    decreases |a|
  {
    if a != [] {
      LexLtIrreflexive(a[1..], lt);
    }
  }

  lemma {:induction false} LexLtTransitive<T(!new)>(a: seq<T>, b: seq<T>, c: seq<T>, lt: (T, T) -> bool)
    requires StrictTotalOrder(lt)
    requires LexLt(a, b, lt) && LexLt(b, c, lt)
    ensures LexLt(a, c, lt)
    decreases |a|
  {
    if a != [] && a[0] == b[0] && b[0] == c[0] {
      LexLtTransitive(a[1..], b[1..], c[1..], lt);
    }
  }

  lemma {:induction false} LexLtTotal<T(!new)>(a: seq<T>, b: seq<T>, lt: (T, T) -> bool)
    requires StrictTotalOrder(lt)
    requires a != b
    ensures LexLt(a, b, lt) || LexLt(b, a, lt)
    decreases |a|
  {
    if a != [] && b != [] && a[0] == b[0] {
      assert a == [a[0]] + a[1..] && b == [b[0]] + b[1..];
      LexLtTotal(a[1..], b[1..], lt);
    }
  }

  /** Lexicographic order over a strict total order is a strict total order. */
  lemma LexLtStrictTotal<T(!new)>(lt: (T, T) -> bool)
    requires StrictTotalOrder(lt)
    ensures forall a: seq<T> :: !LexLt(a, a, lt)
    ensures forall a: seq<T>, b: seq<T>, c: seq<T> :: LexLt(a, b, lt) && LexLt(b, c, lt) ==> LexLt(a, c, lt)
    ensures forall a: seq<T>, b: seq<T> :: a != b ==> LexLt(a, b, lt) || LexLt(b, a, lt)
  {
    forall a: seq<T> ensures !LexLt(a, a, lt) {
      LexLtIrreflexive(a, lt);
    }
    forall a: seq<T>, b: seq<T>, c: seq<T> | LexLt(a, b, lt) && LexLt(b, c, lt) ensures LexLt(a, c, lt) {
      LexLtTransitive(a, b, c, lt);
    }
    forall a: seq<T>, b: seq<T> | a != b ensures LexLt(a, b, lt) || LexLt(b, a, lt) {
      LexLtTotal(a, b, lt);
    }
  }

  function CharLt(a: char, b: char): bool { a < b }

  /** Python's `<` on `str`: lexicographic by code point. */
  function StrLt(a: string, b: string): bool { LexLt(a, b, CharLt) }

  /** Python's `<` on lists (and tuples) of strings; `PurePosixPath` compares its parts this way. */
  function StrsLt(a: seq<string>, b: seq<string>): bool { LexLt(a, b, StrLt) }

  lemma StrLtStrictTotal()
    ensures StrictTotalOrder(StrLt)
  {
    assert StrictTotalOrder(CharLt);
    LexLtStrictTotal(CharLt);
  }

  lemma StrsLtStrictTotal()
    ensures StrictTotalOrder(StrsLt)
  {
    StrLtStrictTotal();
    LexLtStrictTotal(StrLt);
  }

  /** No element of `s` has a key strictly below the key of an element before it. */
  ghost predicate SortedBy<T, K>(s: seq<T>, key: T -> K, lt: (K, K) -> bool) {
    forall i, j :: 0 <= i < j < |s| ==> !lt(key(s[j]), key(s[i]))
  }

  /** Inserts `x` before the first element whose key is not below `x`'s. */
  function Insert<T, K>(x: T, s: seq<T>, key: T -> K, lt: (K, K) -> bool): (r: seq<T>)
    ensures multiset(r) == multiset(s) + multiset{x}
  {
    if s == [] || !lt(key(s[0]), key(x)) then [x] + s
    else
      assert s == [s[0]] + s[1..];
      [s[0]] + Insert(x, s[1..], key, lt)
  }

  /** The elements of `s` ordered by `key` (an insertion sort). */
  function SortBy<T, K>(s: seq<T>, key: T -> K, lt: (K, K) -> bool): (r: seq<T>)
    ensures multiset(r) == multiset(s)
    ensures |r| == |s|
  {
    if s == [] then []
    else
      assert s == [s[0]] + s[1..];
      Insert(s[0], SortBy(s[1..], key, lt), key, lt)
  }

  lemma {:induction false} InsertSorted<T, K(!new)>(x: T, s: seq<T>, key: T -> K, lt: (K, K) -> bool)
    requires StrictTotalOrder(lt)
    requires SortedBy(s, key, lt)
    ensures SortedBy(Insert(x, s, key, lt), key, lt)
    decreases |s|
  {
    if s == [] || !lt(key(s[0]), key(x)) {
      var r := [x] + s;
      forall j | 1 <= j < |r| ensures !lt(key(r[j]), key(x)) {
        if j > 1 {
          assert !lt(key(s[j - 1]), key(s[0]));
        }
      }
    } else {
      var t := Insert(x, s[1..], key, lt);
      InsertSorted(x, s[1..], key, lt);
      var r := [s[0]] + t;
      forall j | 1 <= j < |r| ensures !lt(key(r[j]), key(s[0])) {
        assert r[j] in multiset(t);
        if r[j] != x {
          assert r[j] in multiset(s[1..]);
          var k :| 0 <= k < |s[1..]| && s[1..][k] == r[j];
          assert s[k + 1] == r[j];
        }
      }
    }
  }

  lemma {:induction false} SortBySorted<T, K(!new)>(s: seq<T>, key: T -> K, lt: (K, K) -> bool)
    requires StrictTotalOrder(lt)
    ensures SortedBy(SortBy(s, key, lt), key, lt)
    decreases |s|
  {
    if s != [] {
      SortBySorted(s[1..], key, lt);
      InsertSorted(s[0], SortBy(s[1..], key, lt), key, lt);
    }
  }
}
