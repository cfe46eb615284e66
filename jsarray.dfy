/** The `Array.prototype` operations the services compose: `filter`, `find`
    and `map`, with the facts about them that the services' properties need. */
module JsArray {
  import opened Common

  /** `r` is obtained from `s` by deleting elements, keeping the order of the rest. */
  ghost predicate IsSubsequence<T>(r: seq<T>, s: seq<T>)
    decreases |s|
  {
    || |r| == 0
    || (&& |s| > 0
        && (|| (r[0] == s[0] && IsSubsequence(r[1..], s[1..]))
            || IsSubsequence(r, s[1..])))
  }

  /** `s.filter(keep)`: exactly the elements of `s` that satisfy `keep`. */
  function Filter<T>(s: seq<T>, keep: T -> bool): (r: seq<T>)
    ensures |r| <= |s|
    ensures forall i :: 0 <= i < |r| ==> r[i] in s && keep(r[i])
    ensures forall i :: 0 <= i < |s| && keep(s[i]) ==> s[i] in r
  {
    if |s| == 0 then [] else (if keep(s[0]) then [s[0]] else []) + Filter(s[1..], keep)
  }

  /** `s.map(f)` */
  function Map<T, U>(s: seq<T>, f: T -> U): (r: seq<U>)
    ensures |r| == |s|
  {
    seq(|s|, k requires 0 <= k < |s| => f(s[k]))
  }

  /** `i` is the first index of `s` whose element satisfies `test`. */
  ghost predicate FirstWhere<T>(s: seq<T>, test: T -> bool, i: int) {
    0 <= i < |s| && test(s[i]) && forall j :: 0 <= j < i ==> !test(s[j])
  }

  /** `s.find(test)`: the first element, in order, that satisfies `test`. */
  function Find<T>(s: seq<T>, test: T -> bool): (r: Option<T>)
    ensures r.None? <==> forall i :: 0 <= i < |s| ==> !test(s[i])
    ensures r.Some? ==> exists i :: FirstWhere(s, test, i) && s[i] == r.value
  {
    if |s| == 0 then None
    else if test(s[0]) then
      assert FirstWhere(s, test, 0);
      Some(s[0])
    else
      var r := Find(s[1..], test);
      assert r.Some? ==> exists i :: FirstWhere(s, test, i) && s[i] == r.value by {
        if r.Some? {
          var i :| FirstWhere(s[1..], test, i) && s[1..][i] == r.value;
          assert FirstWhere(s, test, i + 1);
        }
      }
      r
  }

  lemma {:induction false} FilterIsSubsequence<T>(s: seq<T>, keep: T -> bool)
    ensures IsSubsequence(Filter(s, keep), s)
    decreases |s|
  {
    if |s| > 0 {
      FilterIsSubsequence(s[1..], keep);
      var r := Filter(s, keep);
      if keep(s[0]) {
        assert r[0] == s[0] && r[1..] == Filter(s[1..], keep);
      } else {
        assert r == Filter(s[1..], keep);
      }
    }
  }

  /** Filtering with a weaker test keeps at least the same elements, in the same order. */
  lemma {:induction false} FilterMonotone<T>(s: seq<T>, p: T -> bool, q: T -> bool)
    requires forall i :: 0 <= i < |s| && p(s[i]) ==> q(s[i])
    ensures IsSubsequence(Filter(s, p), Filter(s, q))
    decreases |s|
  {
    if |s| > 0 {
      FilterMonotone(s[1..], p, q);
      var rp, rq := Filter(s, p), Filter(s, q);
      var tp, tq := Filter(s[1..], p), Filter(s[1..], q);
      if p(s[0]) {
        assert rp[0] == s[0] == rq[0] && rp[1..] == tp && rq[1..] == tq;
      } else if q(s[0]) {
        assert rp == tp && rq[1..] == tq;
        SkipHead(rp, rq);
      } else {
        assert rp == tp && rq == tq;
      }
    }
  }

  /** Filters that agree on the elements of `s` produce the same result. */
  lemma {:induction false} FilterCongruent<T>(s: seq<T>, p: T -> bool, q: T -> bool)
    requires forall i :: 0 <= i < |s| ==> p(s[i]) == q(s[i])
    ensures Filter(s, p) == Filter(s, q)
    decreases |s|
  {
    if |s| > 0 {
      FilterCongruent(s[1..], p, q);
    }
  }

  /** Filtering a sequence extended by one element extends the result by that
      element exactly when it passes: `filter` visits elements in order. */
  lemma {:induction false} FilterSnoc<T>(s: seq<T>, x: T, keep: T -> bool)
    ensures Filter(s + [x], keep) == Filter(s, keep) + (if keep(x) then [x] else [])
    decreases |s|
  {
    if |s| > 0 {
      assert (s + [x])[1..] == s[1..] + [x];
      FilterSnoc(s[1..], x, keep);
    } else {
      assert s + [x] == [x];
    }
  }

  /** A filter that keeps every element returns the sequence itself. */
  lemma {:induction false} FilterAll<T>(s: seq<T>, keep: T -> bool)
    requires forall i :: 0 <= i < |s| ==> keep(s[i])
    ensures Filter(s, keep) == s
    decreases |s|
  {
    if |s| > 0 {
      FilterAll(s[1..], keep);
    }
  }

  /** Mapping a sequence extended by one element appends that element's image. */
  lemma MapSnoc<T, U>(s: seq<T>, x: T, f: T -> U)
    ensures Map(s + [x], f) == Map(s, f) + [f(x)]
  {
    assert forall i :: 0 <= i < |s| ==> (s + [x])[i] == s[i];
  }

  /** `map` keeps the subsequence relation. */
  lemma {:induction false} MapSubsequence<T, U>(r: seq<T>, s: seq<T>, f: T -> U)
    requires IsSubsequence(r, s)
    ensures IsSubsequence(Map(r, f), Map(s, f))
    decreases |s|
  {
    if |r| > 0 {
      assert Map(s, f)[1..] == Map(s[1..], f);
      if r[0] == s[0] && IsSubsequence(r[1..], s[1..]) {
        assert Map(r, f)[1..] == Map(r[1..], f);
        MapSubsequence(r[1..], s[1..], f);
      } else {
        MapSubsequence(r, s[1..], f);
      }
    }
  }

  /** A subsequence is no longer than the sequence it is taken from. */
  lemma {:induction false} SubsequenceLength<T>(r: seq<T>, s: seq<T>)
    requires IsSubsequence(r, s)
    ensures |r| <= |s|
    decreases |s|
  {
    if |r| > 0 {
      if r[0] == s[0] && IsSubsequence(r[1..], s[1..]) {
        SubsequenceLength(r[1..], s[1..]);
      } else {
        SubsequenceLength(r, s[1..]);
      }
    }
  }

  /** A subsequence of the tail of `s` is a subsequence of `s`. */
  lemma SkipHead<T>(r: seq<T>, s: seq<T>)
    requires |s| > 0 && IsSubsequence(r, s[1..])
    ensures IsSubsequence(r, s)
  {
  }
}
