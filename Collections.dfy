/**
 * The Kotlin list operations the view model relies on: `filterNot` and
 * `distinctBy`. Both are stated for any element type; both preserve order.
 */
module Collections {

  /** `r` can be obtained from `s` by deleting elements (order kept). */
  ghost predicate IsSubsequence<T>(r: seq<T>, s: seq<T>)
    decreases |s|
  {
    r == [] ||
    (s != [] &&
      (IsSubsequence(r, s[..|s| - 1]) ||
       (r[|r| - 1] == s[|s| - 1] && IsSubsequence(r[..|r| - 1], s[..|s| - 1]))))
  }

  lemma {:induction false} SubsequenceIsNoLonger<T>(r: seq<T>, s: seq<T>)
    requires IsSubsequence(r, s)
    ensures |r| <= |s|
    decreases |s|
  {
    if r != [] {
      if IsSubsequence(r, s[..|s| - 1]) {
        SubsequenceIsNoLonger(r, s[..|s| - 1]);
      } else {
        SubsequenceIsNoLonger(r[..|r| - 1], s[..|s| - 1]);
      }
    }
  }

  lemma {:induction false} SubsequenceElements<T>(r: seq<T>, s: seq<T>)
    requires IsSubsequence(r, s)
    ensures forall x :: x in r ==> x in s
    decreases |s|
  {
    if r != [] {
      if IsSubsequence(r, s[..|s| - 1]) {
        SubsequenceElements(r, s[..|s| - 1]);
      } else {
        SubsequenceElements(r[..|r| - 1], s[..|s| - 1]);
        assert r == r[..|r| - 1] + [s[|s| - 1]];
      }
      assert s == s[..|s| - 1] + [s[|s| - 1]];
    }
  }

  /** Kotlin's `filterNot(p)`: keeps, in order, the elements on which `p` is false. */
  function FilterNot<T(==,!new)>(s: seq<T>, p: T -> bool): (r: seq<T>)
    ensures IsSubsequence(r, s)
    ensures forall x :: x in r ==> x in s && !p(x)
    ensures forall x :: multiset(r)[x] == if p(x) then 0 else multiset(s)[x]
  {
    if s == [] then []
    else
      var init := FilterNot(s[..|s| - 1], p);
      assert s == s[..|s| - 1] + [s[|s| - 1]];
      if p(s[|s| - 1]) then init else init + [s[|s| - 1]]
  }

  /** Kotlin's `map(key)`: the key of each element, in order. */
  function KeysOf<T, K>(s: seq<T>, key: T -> K): (ks: seq<K>)
    ensures |ks| == |s|
    ensures forall i :: 0 <= i < |s| ==> ks[i] == key(s[i])
  {
    if s == [] then [] else KeysOf(s[..|s| - 1], key) + [key(s[|s| - 1])]
  }

  /** No two elements share a key. */
  ghost predicate KeysDistinct<T, K>(s: seq<T>, key: T -> K) {
    forall i, j :: 0 <= i < j < |s| ==> key(s[i]) != key(s[j])
  }

  /**
   * Kotlin's `distinctBy(key)`: walks the list and keeps an element when its
   * key has not been kept before, so each key keeps its first element.
   */
  function DistinctBy<T, K(==,!new)>(s: seq<T>, key: T -> K): (r: seq<T>)
    ensures IsSubsequence(r, s)
    ensures |r| <= |s|
    ensures KeysDistinct(r, key)
    ensures forall k :: k in KeysOf(r, key) <==> k in KeysOf(s, key)
  {
    if s == [] then []
    else
      var init := DistinctBy(s[..|s| - 1], key);
      var last := s[|s| - 1];
      SubsequenceIsNoLonger(init, s[..|s| - 1]);
      KeysOfAppend(s[..|s| - 1], last, key);
      assert s == s[..|s| - 1] + [last];
      if key(last) in KeysOf(init, key) then init
      else
        KeysOfAppend(init, last, key);
        init + [last]
  }

  lemma KeysOfAppend<T, K>(s: seq<T>, x: T, key: T -> K)
    ensures KeysOf(s + [x], key) == KeysOf(s, key) + [key(x)]
  {
    assert (s + [x])[..|s + [x]| - 1] == s;
  }

  /** Index `i` holds the first element of `s` with its key. */
  ghost predicate IsFirstOccurrence<T, K>(s: seq<T>, i: int, key: T -> K)
    requires 0 <= i < |s|
  {
    forall j :: 0 <= j < i ==> key(s[j]) != key(s[i])
  }

  /** Reference definition: the elements at first-occurrence positions, in order. */
  ghost function FirstOccurrences<T, K>(s: seq<T>, key: T -> K): seq<T> {
    if s == [] then []
    else
      FirstOccurrences(s[..|s| - 1], key)
        + if IsFirstOccurrence(s, |s| - 1, key) then [s[|s| - 1]] else []
  }

  /** `distinctBy` keeps exactly the first occurrence of every key. */
  lemma {:induction false} DistinctByKeepsFirstOccurrences<T, K(!new)>(s: seq<T>, key: T -> K)
    ensures DistinctBy(s, key) == FirstOccurrences(s, key)
  {
    if s != [] {
      DistinctByKeepsFirstOccurrences(s[..|s| - 1], key);
      DistinctByStep(s, key);
      FirstOccurrencesStep(s, key);
    }
  }

  /** One step of `distinctBy`: the last element is kept exactly when its key is new. */
  lemma DistinctByStep<T, K(!new)>(s: seq<T>, key: T -> K)
    requires s != []
    ensures DistinctBy(s, key) == DistinctBy(s[..|s| - 1], key)
      + if key(s[|s| - 1]) in KeysOf(s[..|s| - 1], key) then [] else [s[|s| - 1]]
  {
    var kept := DistinctBy(s[..|s| - 1], key);
    assert (key(s[|s| - 1]) in KeysOf(kept, key)) == (key(s[|s| - 1]) in KeysOf(s[..|s| - 1], key));
  }

  /** One step of the reference definition, in the same terms. */
  lemma FirstOccurrencesStep<T, K>(s: seq<T>, key: T -> K)
    requires s != []
    ensures FirstOccurrences(s, key) == FirstOccurrences(s[..|s| - 1], key)
      + if key(s[|s| - 1]) in KeysOf(s[..|s| - 1], key) then [] else [s[|s| - 1]]
  {
    NewKeyIsFirstOccurrence(s, key);
  }

  /** The last element is a first occurrence exactly when its key is new. */
  lemma NewKeyIsFirstOccurrence<T, K>(s: seq<T>, key: T -> K)
    requires s != []
    ensures IsFirstOccurrence(s, |s| - 1, key) <==> key(s[|s| - 1]) !in KeysOf(s[..|s| - 1], key)
  {
    var n := |s| - 1;
    var ks := KeysOf(s[..n], key);
    if key(s[n]) in ks {
      var j :| 0 <= j < |ks| && ks[j] == key(s[n]);
      assert key(s[j]) == key(s[n]);
    } else {
      forall j | 0 <= j < n ensures key(s[j]) != key(s[n]) {
        assert ks[j] == key(s[j]);
      }
    }
  }

  /** A list whose keys are already distinct is left as it is. */
  lemma {:induction false} DistinctByOfDistinct<T, K(!new)>(s: seq<T>, key: T -> K)
    requires KeysDistinct(s, key)
    ensures DistinctBy(s, key) == s
  {
    if s != [] {
      var n := |s| - 1;
      var init := s[..n];
      assert KeysDistinct(init, key);
      DistinctByOfDistinct(init, key);
      forall j | 0 <= j < |init| ensures KeysOf(init, key)[j] != key(s[n]) {
        assert key(s[j]) != key(s[n]);
      }
      assert key(s[n]) !in KeysOf(init, key);
      assert s == init + [s[n]];
    }
  }

  /** `distinctBy` is idempotent. */
  lemma DistinctByIdempotent<T, K(!new)>(s: seq<T>, key: T -> K)
    ensures DistinctBy(DistinctBy(s, key), key) == DistinctBy(s, key)
  {
    DistinctByOfDistinct(DistinctBy(s, key), key);
  }
}
