/**
 * Sequence operations the pages express with Array.prototype.filter,
 * reduce and String.prototype.includes, defined element by element from
 * the end so that a left-to-right loop can keep them as invariants.
 */
module SeqUtil {

  /** `a` is obtained from `b` by deleting elements: order is preserved. */
  ghost predicate Subseq<T(!new)>(a: seq<T>, b: seq<T>)
    decreases |b|
  {
    a == [] ||
    (b != [] &&
     ((a[|a| - 1] == b[|b| - 1] && Subseq(a[..|a| - 1], b[..|b| - 1])) ||
      Subseq(a, b[..|b| - 1])))
  }

  /** Array.prototype.filter. */
  function Filter<T(!new)>(s: seq<T>, p: T -> bool): (r: seq<T>)
    ensures |r| <= |s|
    ensures forall x :: x in r <==> x in s && p(x)
    ensures Subseq(r, s)
  {
    if s == [] then []
    else
      var init := Filter(s[..|s| - 1], p);
      var last := s[|s| - 1];
      assert s == s[..|s| - 1] + [last];
      if p(last) then
        var r := init + [last];
        assert r[..|r| - 1] == init;
        r
      else init
  }

  lemma FilterAppend<T(!new)>(s: seq<T>, x: T, p: T -> bool)
    ensures Filter(s + [x], p) == Filter(s, p) + (if p(x) then [x] else [])
  {
    assert (s + [x])[..|s|] == s;
  }

  /** Filtering by a predicate that every element satisfies keeps the whole sequence. */
  lemma {:induction false} FilterKeepsAll<T(!new)>(s: seq<T>, p: T -> bool)
    requires forall x :: x in s ==> p(x)
    ensures Filter(s, p) == s
  {
    if s != [] {
      var init := s[..|s| - 1];
      assert s == init + [s[|s| - 1]];
      FilterKeepsAll(init, p);
      FilterAppend(init, s[|s| - 1], p);
    }
  }

  /** Two successive filters are one filter by the conjunction. */
  lemma {:induction false} FilterFilter<T(!new)>(s: seq<T>, p: T -> bool, q: T -> bool, both: T -> bool)
    requires forall x :: both(x) == (p(x) && q(x))
    ensures Filter(Filter(s, p), q) == Filter(s, both)
  {
    if s != [] {
      var init := s[..|s| - 1];
      var x := s[|s| - 1];
      assert s == init + [x];
      FilterFilter(init, p, q, both);
      FilterAppend(init, x, p);
      FilterAppend(init, x, both);
      FilterAppend(Filter(init, p), x, q);
    }
  }

  /** Filters by predicates that agree on every element give the same result. */
  lemma {:induction false} FilterExt<T(!new)>(s: seq<T>, p: T -> bool, q: T -> bool)
    requires forall x :: p(x) == q(x)
    ensures Filter(s, p) == Filter(s, q)
  {
    if s != [] {
      var init := s[..|s| - 1];
      assert s == init + [s[|s| - 1]];
      FilterExt(init, p, q);
      FilterAppend(init, s[|s| - 1], p);
      FilterAppend(init, s[|s| - 1], q);
    }
  }

  /** A filter comes out empty exactly when no element satisfies the predicate. */
  lemma FilterEmptyIff<T(!new)>(s: seq<T>, p: T -> bool)
    ensures Filter(s, p) == [] <==> forall x :: x in s ==> !p(x)
  {
    var f := Filter(s, p);
    if f != [] {
      assert f[0] in f;
    }
  }

  /** Array.prototype.reduce((sum, x) => sum + f(x), 0). */
  function Sum<T(!new)>(s: seq<T>, f: T -> int): int
  {
    if s == [] then 0 else Sum(s[..|s| - 1], f) + f(s[|s| - 1])
  }

  lemma SumAppend<T(!new)>(s: seq<T>, x: T, f: T -> int)
    ensures Sum(s + [x], f) == Sum(s, f) + f(x)
  {
    assert (s + [x])[..|s|] == s;
  }

  /** The number of elements satisfying `p` (filter(p).length). */
  function Count<T(!new)>(s: seq<T>, p: T -> bool): (n: nat)
    ensures n == |Filter(s, p)|
  {
    if s == [] then 0
    else
      assert s == s[..|s| - 1] + [s[|s| - 1]];
      FilterAppend(s[..|s| - 1], s[|s| - 1], p);
      Count(s[..|s| - 1], p) + (if p(s[|s| - 1]) then 1 else 0)
  }

  /** Counts of three pairwise exclusive predicates never add up to more than the length. */
  lemma {:induction false} DisjointCountsBounded<T(!new)>(s: seq<T>, p: T -> bool, q: T -> bool, r: T -> bool)
    requires forall x :: !(p(x) && q(x)) && !(p(x) && r(x)) && !(q(x) && r(x))
    ensures Count(s, p) + Count(s, q) + Count(s, r) <= |s|
  {
    if s != [] {
      DisjointCountsBounded(s[..|s| - 1], p, q, r);
    }
  }

  /** Counting by a disjunction of exclusive predicates adds their counts. */
  lemma {:induction false} CountSplit<T(!new)>(s: seq<T>, p: T -> bool, q: T -> bool, r: T -> bool)
    requires forall x :: p(x) == (q(x) || r(x)) && !(q(x) && r(x))
    ensures Count(s, p) == Count(s, q) + Count(s, r)
  {
    if s != [] {
      CountSplit(s[..|s| - 1], p, q, r);
    }
  }

  /** Every element of `s` has a different key. */
  ghost predicate Injective<T(!new), K(!new)>(s: seq<T>, key: T -> K)
  {
    forall i, j :: 0 <= i < j < |s| ==> key(s[i]) != key(s[j])
  }

  lemma InjectiveAppend<T(!new), K(!new)>(s: seq<T>, x: T, key: T -> K)
    ensures Injective(s + [x], key) <==> Injective(s, key) && forall y :: y in s ==> key(y) != key(x)
  {
    var t := s + [x];
    if Injective(s, key) && forall y :: y in s ==> key(y) != key(x) {
      forall i, j | 0 <= i < j < |t| ensures key(t[i]) != key(t[j]) {
        if j == |s| {
          assert t[i] in s;
        } else {
          assert t[i] == s[i] && t[j] == s[j];
        }
      }
    }
    if Injective(t, key) {
      forall y | y in s ensures key(y) != key(x) {
        var i :| 0 <= i < |s| && s[i] == y;
        assert t[i] == y && t[|s|] == x;
      }
      forall i, j | 0 <= i < j < |s| ensures key(s[i]) != key(s[j]) {
        assert t[i] == s[i] && t[j] == s[j];
      }
    }
  }

  lemma InjectivePrepend<T(!new), K(!new)>(x: T, s: seq<T>, key: T -> K)
    requires Injective(s, key)
    requires forall y :: y in s ==> key(y) != key(x)
    ensures Injective([x] + s, key)
  {
    var t := [x] + s;
    forall i, j | 0 <= i < j < |t| ensures key(t[i]) != key(t[j]) {
      assert t[j] == s[j - 1];
      if i == 0 {
        assert s[j - 1] in s;
      } else {
        assert t[i] == s[i - 1];
      }
    }
  }

  /** At least two elements satisfy `p` exactly when two different positions do. */
  lemma {:induction false} CountAtLeastTwo<T(!new)>(s: seq<T>, p: T -> bool)
    ensures Count(s, p) >= 2 <==> exists i, j :: 0 <= i < j < |s| && p(s[i]) && p(s[j])
  {
    if s != [] {
      var init := s[..|s| - 1];
      var x := s[|s| - 1];
      assert s == init + [x];
      CountAtLeastTwo(init, p);
      FilterEmptyIff(init, p);
      if exists i, j :: 0 <= i < j < |s| && p(s[i]) && p(s[j]) {
        var i, j :| 0 <= i < j < |s| && p(s[i]) && p(s[j]);
        if j < |init| {
          assert init[i] == s[i] && init[j] == s[j];
        } else {
          assert init[i] == s[i];
        }
      }
      if Count(s, p) >= 2 {
        if p(x) {
          var y :| y in init && p(y);
          var i :| 0 <= i < |init| && init[i] == y;
          assert s[i] == y && s[|init|] == x;
        } else {
          var i, j :| 0 <= i < j < |init| && p(init[i]) && p(init[j]);
          assert s[i] == init[i] && s[j] == init[j];
        }
      }
    }
  }

  /** With distinct keys, at most one element has a given key. */
  lemma {:induction false} AtMostOneWithKey<T(!new), K(!new)>(s: seq<T>, p: T -> bool, key: T -> K, k: K)
    requires Injective(s, key)
    requires forall x :: p(x) ==> key(x) == k
    ensures Count(s, p) <= 1
  {
    if s != [] {
      var init := s[..|s| - 1];
      var x := s[|s| - 1];
      assert s == init + [x];
      InjectiveAppend(init, x, key);
      if p(x) {
        FilterEmptyIff(init, p);
      } else {
        AtMostOneWithKey(init, p, key, k);
      }
    }
  }

  /** Filtering keeps keys distinct. */
  lemma {:induction false} FilterInjective<T(!new), K(!new)>(s: seq<T>, p: T -> bool, key: T -> K)
    requires Injective(s, key)
    ensures Injective(Filter(s, p), key)
  {
    if s != [] {
      var init := s[..|s| - 1];
      var x := s[|s| - 1];
      assert s == init + [x];
      InjectiveAppend(init, x, key);
      FilterInjective(init, p, key);
      FilterAppend(init, x, p);
      if p(x) {
        InjectiveAppend(Filter(init, p), x, key);
      }
    }
  }

  /** The distinct keys of `s`, in order of first appearance. */
  function Keys<T(!new), K(==,!new)>(s: seq<T>, key: T -> K): (ks: seq<K>)
    ensures forall k :: k in ks <==> exists x :: x in s && key(x) == k
    ensures forall i, j :: 0 <= i < j < |ks| ==> ks[i] != ks[j]
  {
    if s == [] then []
    else
      var init := s[..|s| - 1];
      var x := s[|s| - 1];
      assert s == init + [x];
      var ks := Keys(init, key);
      if key(x) in ks then ks else ks + [key(x)]
  }

  lemma KeysAppend<T(!new), K(!new)>(s: seq<T>, x: T, key: T -> K)
    ensures Keys(s + [x], key) == if key(x) in Keys(s, key) then Keys(s, key) else Keys(s, key) + [key(x)]
  {
    assert (s + [x])[..|s|] == s;
  }

  /** The elements of `s` whose key is `k`, in order. */
  function KeyFilter<T(!new), K(==,!new)>(s: seq<T>, key: T -> K, k: K): seq<T>
  {
    if s == [] then []
    else
      var r := KeyFilter(s[..|s| - 1], key, k);
      if key(s[|s| - 1]) == k then r + [s[|s| - 1]] else r
  }

  /** KeyFilter keeps exactly the elements with key `k`, in their order in `s`. */
  lemma {:induction false} KeyFilterSelects<T(!new), K(!new)>(s: seq<T>, key: T -> K, k: K)
    ensures forall x :: x in KeyFilter(s, key, k) <==> x in s && key(x) == k
    ensures Subseq(KeyFilter(s, key, k), s)
  {
    if s != [] {
      var init := s[..|s| - 1];
      var x := s[|s| - 1];
      assert s == init + [x];
      KeyFilterSelects(init, key, k);
      var r := KeyFilter(init, key, k);
      if key(x) == k {
        assert (r + [x])[..|r|] == r;
      }
    }
  }

  lemma KeyFilterAppend<T(!new), K(!new)>(s: seq<T>, x: T, key: T -> K, k: K)
    ensures KeyFilter(s + [x], key, k) == KeyFilter(s, key, k) + (if key(x) == k then [x] else [])
  {
    assert (s + [x])[..|s|] == s;
  }

  /** A key no element carries selects nothing. */
  lemma {:induction false} KeyFilterEmpty<T(!new), K(!new)>(s: seq<T>, key: T -> K, k: K)
    ensures KeyFilter(s, key, k) == [] <==> forall i :: 0 <= i < |s| ==> key(s[i]) != k
  {
    KeyFilterSelects(s, key, k);
    if KeyFilter(s, key, k) == [] {
      forall i | 0 <= i < |s| ensures key(s[i]) != k {
        assert s[i] in s;
      }
    } else {
      var x := KeyFilter(s, key, k)[0];
      assert x in s && key(x) == k;
    }
  }

  /** The sum of `f` over the elements of `s` whose key is `k`. */
  function KeySum<T(!new), K(==,!new)>(s: seq<T>, key: T -> K, k: K, f: T -> int): int
  {
    if s == [] then 0
    else
      KeySum(s[..|s| - 1], key, k, f) + (if key(s[|s| - 1]) == k then f(s[|s| - 1]) else 0)
  }

  lemma KeySumAppend<T(!new), K(!new)>(s: seq<T>, x: T, key: T -> K, k: K, f: T -> int)
    ensures KeySum(s + [x], key, k, f) == KeySum(s, key, k, f) + (if key(x) == k then f(x) else 0)
  {
    assert (s + [x])[..|s|] == s;
  }

  /** A key that does not occur contributes nothing. */
  lemma {:induction false} KeySumAbsent<T(!new), K(!new)>(s: seq<T>, key: T -> K, k: K, f: T -> int)
    requires k !in Keys(s, key)
    ensures KeySum(s, key, k, f) == 0
  {
    if s != [] {
      var init := s[..|s| - 1];
      assert s == init + [s[|s| - 1]];
      KeysAppend(init, s[|s| - 1], key);
      KeySumAbsent(init, key, k, f);
    }
  }

  /** The sum over the keys `ks` of the per-key sums. */
  function SumOverKeys<T(!new), K(==,!new)>(ks: seq<K>, s: seq<T>, key: T -> K, f: T -> int): int
  {
    if ks == [] then 0
    else SumOverKeys(ks[..|ks| - 1], s, key, f) + KeySum(s, key, ks[|ks| - 1], f)
  }

  lemma SumOverKeysAppendKey<T(!new), K(!new)>(ks: seq<K>, k: K, s: seq<T>, key: T -> K, f: T -> int)
    ensures SumOverKeys(ks + [k], s, key, f) == SumOverKeys(ks, s, key, f) + KeySum(s, key, k, f)
  {
    assert (ks + [k])[..|ks|] == ks;
  }

  /** Adding one element to `s` adds its value once if its key is among the distinct keys `ks`. */
  lemma {:induction false} SumOverKeysAppendElem<T(!new), K(!new)>(ks: seq<K>, s: seq<T>, x: T, key: T -> K, f: T -> int)
    requires forall i, j :: 0 <= i < j < |ks| ==> ks[i] != ks[j]
    ensures SumOverKeys(ks, s + [x], key, f) ==
            SumOverKeys(ks, s, key, f) + (if key(x) in ks then f(x) else 0)
  {
    if ks != [] {
      var init := ks[..|ks| - 1];
      var k := ks[|ks| - 1];
      assert ks == init + [k];
      SumOverKeysAppendElem(init, s, x, key, f);
      KeySumAppend(s, x, key, k, f);
      assert key(x) in ks <==> key(x) in init || key(x) == k;
      assert key(x) == k ==> key(x) !in init;
    }
  }

  /** Appending an element whose key is already present adds its value to the per-key sums. */
  lemma KeySumsStepKnown<T(!new), K(!new)>(init: seq<T>, x: T, key: T -> K, f: T -> int)
    requires key(x) in Keys(init, key)
    ensures SumOverKeys(Keys(init + [x], key), init + [x], key, f) == SumOverKeys(Keys(init, key), init, key, f) + f(x)
  {
    KeysAppend(init, x, key);
    SumOverKeysAppendElem(Keys(init, key), init, x, key, f);
  }

  /** Appending an element with a new key adds a key whose sum is that element's value. */
  lemma KeySumsStepNew<T(!new), K(!new)>(init: seq<T>, x: T, key: T -> K, f: T -> int)
    requires key(x) !in Keys(init, key)
    ensures SumOverKeys(Keys(init + [x], key), init + [x], key, f) == SumOverKeys(Keys(init, key), init, key, f) + f(x)
  {
    var ks := Keys(init, key);
    KeysAppend(init, x, key);
    SumOverKeysAppendKey(ks, key(x), init + [x], key, f);
    SumOverKeysAppendElem(ks, init, x, key, f);
    KeySumAbsent(init, key, key(x), f);
    KeySumAppend(init, x, key, key(x), f);
  }

  /** Grouping by key and summing each group accounts for every element exactly once. */
  lemma {:induction false} KeySumsPartition<T(!new), K(!new)>(s: seq<T>, key: T -> K, f: T -> int)
    ensures SumOverKeys(Keys(s, key), s, key, f) == Sum(s, f)
  {
    if s != [] {
      var init := s[..|s| - 1];
      var x := s[|s| - 1];
      assert s == init + [x];
      KeySumsPartition(init, key, f);
      SumAppend(init, x, f);
      if key(x) in Keys(init, key) {
        KeySumsStepKnown(init, x, key, f);
      } else {
        KeySumsStepNew(init, x, key, f);
      }
    }
  }

  /** The groups for the keys `ks`, concatenated in key order. */
  function ConcatGroups<T(!new), K(==,!new)>(ks: seq<K>, s: seq<T>, key: T -> K): seq<T>
  {
    if ks == [] then []
    else ConcatGroups(ks[..|ks| - 1], s, key) + KeyFilter(s, key, ks[|ks| - 1])
  }

  lemma ConcatGroupsAppendKey<T(!new), K(!new)>(ks: seq<K>, k: K, s: seq<T>, key: T -> K)
    ensures ConcatGroups(ks + [k], s, key) == ConcatGroups(ks, s, key) + KeyFilter(s, key, k)
  {
    assert (ks + [k])[..|ks|] == ks;
  }

  lemma {:induction false} ConcatGroupsAppendElem<T(!new), K(!new)>(ks: seq<K>, s: seq<T>, x: T, key: T -> K)
    requires forall i, j :: 0 <= i < j < |ks| ==> ks[i] != ks[j]
    ensures multiset(ConcatGroups(ks, s + [x], key)) ==
            multiset(ConcatGroups(ks, s, key)) + (if key(x) in ks then multiset{x} else multiset{})
  {
    if ks != [] {
      var init := ks[..|ks| - 1];
      var k := ks[|ks| - 1];
      assert ks == init + [k];
      var inInit := key(x) in init;
      assert key(x) in ks <==> inInit || key(x) == k;
      assert inInit ==> key(x) != k by {
        if inInit {
          var i :| 0 <= i < |init| && init[i] == key(x);
          assert ks[i] == init[i];
        }
      }
      ConcatGroupsAppendElem(init, s, x, key);
      KeyFilterAppend(s, x, key, k);
      MultisetConcatStep(ConcatGroups(ks, s, key), ConcatGroups(ks, s + [x], key),
                         ConcatGroups(init, s, key), ConcatGroups(init, s + [x], key),
                         KeyFilter(s, key, k), KeyFilter(s + [x], key, k),
                         if inInit then multiset{x} else multiset{},
                         if key(x) == k then multiset{x} else multiset{});
    }
  }

  lemma MultisetConcatStep<T>(c: seq<T>, c': seq<T>, a: seq<T>, a': seq<T>, b: seq<T>, b': seq<T>,
                              da: multiset<T>, db: multiset<T>)
    requires c == a + b && c' == a' + b'
    requires multiset(a') == multiset(a) + da
    requires multiset(b') == multiset(b) + db
    ensures multiset(c') == multiset(c) + da + db
  {
  }

  /** Appending an element whose key is already present adds it to that key's group. */
  lemma GroupsStepKnown<T(!new), K(!new)>(init: seq<T>, x: T, key: T -> K)
    requires key(x) in Keys(init, key)
    ensures multiset(ConcatGroups(Keys(init + [x], key), init + [x], key)) ==
            multiset(ConcatGroups(Keys(init, key), init, key)) + multiset{x}
  {
    KeysAppend(init, x, key);
    ConcatGroupsAppendElem(Keys(init, key), init, x, key);
  }

  /** Appending an element with a new key adds a group holding just that element. */
  lemma GroupsStepNew<T(!new), K(!new)>(init: seq<T>, x: T, key: T -> K)
    requires key(x) !in Keys(init, key)
    ensures multiset(ConcatGroups(Keys(init + [x], key), init + [x], key)) ==
            multiset(ConcatGroups(Keys(init, key), init, key)) + multiset{x}
  {
    var ks := Keys(init, key);
    KeysAppend(init, x, key);
    ConcatGroupsAppendElem(ks, init, x, key);
    ConcatGroupsAppendKey(ks, key(x), init + [x], key);
    KeyFilterEmpty(init, key, key(x));
    KeyFilterAppend(init, x, key, key(x));
  }

  /** Grouping by key places every element in exactly one group: the groups form a permutation of `s`. */
  lemma {:induction false} GroupsPartition<T(!new), K(!new)>(s: seq<T>, key: T -> K)
    ensures multiset(ConcatGroups(Keys(s, key), s, key)) == multiset(s)
  {
    if s != [] {
      var init := s[..|s| - 1];
      var x := s[|s| - 1];
      assert s == init + [x];
      GroupsPartition(init, key);
      if key(x) in Keys(init, key) {
        GroupsStepKnown(init, x, key);
      } else {
        GroupsStepNew(init, x, key);
      }
    }
  }

  /** `pat` occurs in `text` starting at index `i`. */
  ghost predicate OccursAt(text: string, pat: string, i: int)
  {
    0 <= i && i + |pat| <= |text| && text[i..i + |pat|] == pat
  }

  /** `pat` occurs somewhere in `text` (String.prototype.includes). */
  function Contains(text: string, pat: string): bool
    decreases |text|
  {
    if |pat| > |text| then false
    else text[..|pat|] == pat || (text != [] && Contains(text[1..], pat))
  }

  /** `Contains` finds an occurrence exactly when there is one. */
  lemma {:induction false} ContainsIff(text: string, pat: string)
    ensures Contains(text, pat) <==> exists i :: OccursAt(text, pat, i)
    decreases |text|
  {
    if |pat| <= |text| {
      if text[..|pat|] == pat {
        assert OccursAt(text, pat, 0);
      } else if text != [] {
        ContainsIff(text[1..], pat);
        if Contains(text[1..], pat) {
          var j :| OccursAt(text[1..], pat, j);
          assert text[j + 1..j + 1 + |pat|] == text[1..][j..j + |pat|];
          assert OccursAt(text, pat, j + 1);
        }
        forall i | OccursAt(text, pat, i) ensures Contains(text[1..], pat) {
          assert i != 0;
          assert text[1..][i - 1..i - 1 + |pat|] == text[i..i + |pat|];
          assert OccursAt(text[1..], pat, i - 1);
        }
      }
    }
  }

  /** ASCII case folding of String.prototype.toLowerCase. */
  function LowerChar(c: char): char
  {
    if 'A' <= c <= 'Z' then (c as int - 'A' as int + 'a' as int) as char else c
  }

  function Lower(s: string): (r: string)
    ensures |r| == |s|
    ensures forall i :: 0 <= i < |s| ==> r[i] == LowerChar(s[i])
  {
    seq(|s|, i requires 0 <= i < |s| => LowerChar(s[i]))
  }
}
